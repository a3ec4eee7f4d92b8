/** Set operations on bitmaps stored as 64-bit words, and the sets of positions they stand for. */
module SimdBitmap {
  import opened Wrappers

  // ---------------------------------------------------------------- one word

  /** A `u64` as its bits, least significant first. */
  type Word = w: seq<bool> | |w| == 64 witness seq(64, _ => false)

  function AndWord(v: Word, w: Word): Word {
    seq(64, k requires 0 <= k < 64 => v[k] && w[k])
  }

  function OrWord(v: Word, w: Word): Word {
    seq(64, k requires 0 <= k < 64 => v[k] || w[k])
  }

  function XorWord(v: Word, w: Word): Word {
    seq(64, k requires 0 <= k < 64 => v[k] != w[k])
  }

  /** `w & !(1 << k)`. */
  function Cleared(w: Word, k: nat): Word
    requires k < 64
  {
    w[k := false]
  }

  /** `count_ones`, over the first bits of a word. */
  function Ones(bits: seq<bool>): nat {
    if bits == [] then 0 else Ones(bits[..|bits| - 1]) + if bits[|bits| - 1] then 1 else 0
  }

  /** `trailing_zeros` of a word that is not zero. */
  function TrailingZeros(bits: seq<bool>): (k: nat)
    requires true in bits
    ensures k < |bits| && bits[k] && forall j :: 0 <= j < k ==> !bits[j]
  {
    if bits[0] then 0 else 1 + TrailingZeros(bits[1..])
  }

  /** The set bits, lowest first, counted from `base`. */
  function Positions(bits: seq<bool>, base: nat): seq<nat> {
    if bits == [] then []
    else Positions(bits[..|bits| - 1], base) + if bits[|bits| - 1] then [base + |bits| - 1] else []
  }

  lemma {:induction false} CountsAddUp(v: seq<bool>, w: seq<bool>, both: seq<bool>, either: seq<bool>)
    requires |v| == |w| == |both| == |either|
    requires forall k :: 0 <= k < |v| ==> both[k] == (v[k] && w[k]) && either[k] == (v[k] || w[k])
    ensures Ones(v) + Ones(w) == Ones(both) + Ones(either)
  {
    if v != [] {
      var n := |v| - 1;
      CountsAddUp(v[..n], w[..n], both[..n], either[..n]);
    }
  }

  lemma {:induction false} PositionIsBit(bits: seq<bool>, base: nat, p: nat)
    ensures p in Positions(bits, base) <==> base <= p < base + |bits| && bits[p - base]
  {
    if bits != [] {
      var front, last := bits[..|bits| - 1], bits[|bits| - 1];
      PositionIsBit(front, base, p);
      assert Positions(bits, base) == Positions(front, base) + if last then [base + |front|] else [];
      assert p in Positions(bits, base) <==> p in Positions(front, base) || (last && p == base + |front|);
    }
  }

  lemma {:induction false} PositionsIncrease(bits: seq<bool>, base: nat)
    ensures |Positions(bits, base)| == Ones(bits) && Increasing(Positions(bits, base))
  {
    if bits != [] {
      var front := bits[..|bits| - 1];
      PositionsIncrease(front, base);
      forall p | p in Positions(front, base) ensures p < base + |front| {
        PositionIsBit(front, base, p);
      }
      var last := if bits[|front|] then [base + |front|] else [];
      IncreasingConcat(Positions(front, base), last, base + |front|);
    }
  }

  lemma {:induction false} NoPositions(bits: seq<bool>, base: nat)
    ensures Positions(bits, base) == [] <==> true !in bits
  {
    if bits != [] {
      NoPositions(bits[..|bits| - 1], base);
      assert bits == bits[..|bits| - 1] + [bits[|bits| - 1]];
    }
  }

  /** Clearing the lowest set bit takes the first position off the list. */
  lemma {:induction false} ClearLowest(bits: seq<bool>, base: nat, k: nat)
    requires k < |bits| && bits[k] && forall j :: 0 <= j < k ==> !bits[j]
    ensures Positions(bits, base) == [base + k] + Positions(bits[k := false], base)
  {
    var n := |bits| - 1;
    if k == n {
      NoPositions(bits[..n], base);
      assert bits[k := false][..n] == bits[..n];
    } else {
      ClearLowest(bits[..n], base, k);
      assert bits[k := false][..n] == bits[..n][k := false];
    }
  }

  // ---------------------------------------------------------------- whole bitmaps

  predicate Increasing(s: seq<nat>) {
    forall i, j :: 0 <= i < j < |s| ==> s[i] < s[j]
  }

  /** The positions set in a bitmap. */
  ghost function SetOf(words: seq<Word>): set<nat> {
    set p: nat | p < 64 * |words| && words[p / 64][p % 64]
  }

  function Popcount(words: seq<Word>): nat {
    if words == [] then 0 else Popcount(words[..|words| - 1]) + Ones(words[|words| - 1])
  }

  function AllSet(words: seq<Word>): seq<nat> {
    if words == [] then []
    else AllSet(words[..|words| - 1]) + Positions(words[|words| - 1], 64 * (|words| - 1))
  }

  function Min(m: nat, n: nat): nat {
    if m < n then m else n
  }

  function And(a: seq<Word>, b: seq<Word>): seq<Word> {
    seq(Min(|a|, |b|), i requires 0 <= i < Min(|a|, |b|) => AndWord(a[i], b[i]))
  }

  function Or(a: seq<Word>, b: seq<Word>): seq<Word> {
    seq(Min(|a|, |b|), i requires 0 <= i < Min(|a|, |b|) => OrWord(a[i], b[i]))
  }

  function Xor(a: seq<Word>, b: seq<Word>): seq<Word> {
    seq(Min(|a|, |b|), i requires 0 <= i < Min(|a|, |b|) => XorWord(a[i], b[i]))
  }

  /** The positions of one word, against the set of the whole bitmap. */
  lemma LastWordPositions(words: seq<Word>, p: nat)
    requires words != []
    ensures var n := |words| - 1;
      p in Positions(words[n], 64 * n) <==> p >= 64 * n && p in SetOf(words)
  {
    var n := |words| - 1;
    PositionIsBit(words[n], 64 * n, p);
    if 64 * n <= p < 64 * n + 64 {
      assert p / 64 == n && p % 64 == p - 64 * n;
    }
  }

  lemma FrontPositions(words: seq<Word>, p: nat)
    requires words != []
    ensures p in SetOf(words[..|words| - 1]) <==> p < 64 * (|words| - 1) && p in SetOf(words)
  {
  }

  /** The list of set positions: each exactly once, in increasing order, as many as the popcount. */
  lemma {:induction false} AllSetIsExact(words: seq<Word>)
    ensures Increasing(AllSet(words)) && |AllSet(words)| == Popcount(words)
    ensures forall p :: p in AllSet(words) <==> p in SetOf(words)
  {
    if words != [] {
      var n := |words| - 1;
      var front, last := AllSet(words[..n]), Positions(words[n], 64 * n);
      AllSetIsExact(words[..n]);
      PositionsIncrease(words[n], 64 * n);
      forall x | x in last ensures x >= 64 * n {
        PositionIsBit(words[n], 64 * n, x);
      }
      hide Positions, Ones;
      forall p: nat ensures p in AllSet(words) <==> p in SetOf(words) {
        LastWordPositions(words, p);
        FrontPositions(words, p);
        hide SetOf;
      }
      forall x | x in front ensures x < 64 * n {
        FrontPositions(words, x);
      }
      hide SetOf;
      IncreasingConcat(front, last, 64 * n);
    }
  }

  lemma IncreasingConcat(s: seq<nat>, t: seq<nat>, bound: nat)
    requires Increasing(s) && Increasing(t)
    requires (forall x <- s :: x < bound) && (forall x <- t :: bound <= x)
    ensures Increasing(s + t)
  {
    forall i, j | 0 <= i < j < |s + t| ensures (s + t)[i] < (s + t)[j] {
      assert i < |s| ==> s[i] in s;
      assert j >= |s| ==> t[j - |s|] in t;
    }
  }

  lemma {:induction false} IncreasingCount(s: seq<nat>, ps: set<nat>)
    requires Increasing(s) && forall p :: p in s <==> p in ps
    ensures |s| == |ps|
  {
    if s == [] {
      assert ps == {};
    } else {
      var front, last := s[..|s| - 1], s[|s| - 1];
      assert forall p :: p in s <==> p in front || p == last;
      assert last !in front;
      IncreasingCount(front, ps - {last});
    }
  }

  /** `popcount` is the size of the set. */
  lemma PopcountIsSize(words: seq<Word>)
    ensures Popcount(words) == |SetOf(words)|
  {
    AllSetIsExact(words);
    hide AllSet, Popcount, SetOf;
    IncreasingCount(AllSet(words), SetOf(words));
  }

  lemma WordwiseSets(a: seq<Word>, b: seq<Word>, p: nat)
    requires p < 64 * Min(|a|, |b|)
    ensures p in SetOf(And(a, b)) <==> p in SetOf(a) && p in SetOf(b)
    ensures p in SetOf(Or(a, b)) <==> p in SetOf(a) || p in SetOf(b)
    ensures p in SetOf(Xor(a, b)) <==> (p in SetOf(a)) != (p in SetOf(b))
  {
  }

  function Below(ps: set<nat>, n: nat): set<nat> {
    set p | p in ps && p < n
  }

  /** The word operations are the set operations, cut to the shorter operand; `bitmap_and` loses nothing. */
  lemma OperationsAreSetOperations(a: seq<Word>, b: seq<Word>)
    ensures var n := 64 * Min(|a|, |b|);
      && SetOf(And(a, b)) == SetOf(a) * SetOf(b)
      && SetOf(Or(a, b)) == Below(SetOf(a) + SetOf(b), n)
      && SetOf(Xor(a, b)) == Below((SetOf(a) - SetOf(b)) + (SetOf(b) - SetOf(a)), n)
  {
    var n := 64 * Min(|a|, |b|);
    InRange(And(a, b));
    InRange(Or(a, b));
    InRange(Xor(a, b));
    InRange(a);
    InRange(b);
    hide SetOf;
    forall p: nat | p < n
      ensures p in SetOf(And(a, b)) <==> p in SetOf(a) && p in SetOf(b)
      ensures p in SetOf(Or(a, b)) <==> p in SetOf(a) || p in SetOf(b)
      ensures p in SetOf(Xor(a, b)) <==> (p in SetOf(a)) != (p in SetOf(b))
    {
      WordwiseSets(a, b, p);
    }
  }

  lemma InRange(words: seq<Word>)
    ensures forall p <- SetOf(words) :: p < 64 * |words|
  {
  }

  /** The part of the longer operand that the sizes leave out. */
  function Tail(a: seq<Word>, b: seq<Word>): seq<Word> {
    if |a| > |b| then a[|b|..] else b[|a|..]
  }

  lemma {:induction false} PopcountConcat(a: seq<Word>, b: seq<Word>)
    ensures Popcount(a + b) == Popcount(a) + Popcount(b)
  {
    if b == [] {
      assert a + b == a;
    } else {
      PopcountConcat(a, b[..|b| - 1]);
      assert (a + b)[..|a + b| - 1] == a + b[..|b| - 1];
    }
  }

  lemma {:induction false} EqualLengthsAddUp(a: seq<Word>, b: seq<Word>)
    requires |a| == |b|
    ensures Popcount(a) + Popcount(b) == Popcount(And(a, b)) + Popcount(Or(a, b))
  {
    if a != [] {
      var n := |a| - 1;
      EqualLengthsAddUp(a[..n], b[..n]);
      CountsAddUp(a[n], b[n], AndWord(a[n], b[n]), OrWord(a[n], b[n]));
      assert And(a, b)[..n] == And(a[..n], b[..n]);
      assert Or(a, b)[..n] == Or(a[..n], b[..n]);
    }
  }

  /** Inclusion and exclusion, for operands of any lengths. */
  lemma SizesAddUp(a: seq<Word>, b: seq<Word>)
    ensures Popcount(a) + Popcount(b) == Popcount(And(a, b)) + Popcount(Or(a, b)) + Popcount(Tail(a, b))
  {
    var n := Min(|a|, |b|);
    EqualLengthsAddUp(a[..n], b[..n]);
    assert And(a[..n], b[..n]) == And(a, b) && Or(a[..n], b[..n]) == Or(a, b);
    assert a[..n] + a[n..] == a && b[..n] + b[n..] == b;
    assert Popcount([]) == 0;
    assert (|a| <= n ==> a[n..] == []) && (|b| <= n ==> b[n..] == []);
    hide Popcount, And, Or;
    PopcountConcat(a[..n], a[n..]);
    PopcountConcat(b[..n], b[n..]);
  }

  /** `intersection_size` is always the size of the intersection; `union_size` is the size of the union
      exactly when the longer operand has nothing set past the end of the shorter. */
  lemma SizesAreExactlyWhen(a: seq<Word>, b: seq<Word>)
    ensures Popcount(And(a, b)) == |SetOf(a) * SetOf(b)|
    ensures Popcount(Or(a, b)) == |SetOf(a) + SetOf(b)| <==> Popcount(Tail(a, b)) == 0
  {
    PopcountIsSize(a);
    PopcountIsSize(b);
    PopcountIsSize(And(a, b));
    OperationsAreSetOperations(a, b);
    SizesAddUp(a, b);
    hide *;
    assert |SetOf(a) + SetOf(b)| == |SetOf(a)| + |SetOf(b)| - |SetOf(a) * SetOf(b)|;
  }

  // ---------------------------------------------------------------- the engine

  method BitmapAnd(a: seq<Word>, b: seq<Word>, result: array<Word>)
    modifies result
    ensures var n := Min(result.Length, Min(|a|, |b|));
      result[..] == And(a, b)[..n] + old(result[..])[n..]
  {
    var len := Min(|a|, Min(|b|, result.Length));
    hide AndWord, OrWord, XorWord, Ones;
    for i := 0 to len
      invariant forall j :: 0 <= j < i ==> result[j] == And(a, b)[j]
      invariant forall j :: i <= j < result.Length ==> result[j] == old(result[j])
    {
      result[i] := AndWord(a[i], b[i]);
    }
  }

  method BitmapOr(a: seq<Word>, b: seq<Word>, result: array<Word>)
    modifies result
    ensures var n := Min(result.Length, Min(|a|, |b|));
      result[..] == Or(a, b)[..n] + old(result[..])[n..]
  {
    var len := Min(|a|, Min(|b|, result.Length));
    hide AndWord, OrWord, XorWord, Ones;
    for i := 0 to len
      invariant forall j :: 0 <= j < i ==> result[j] == Or(a, b)[j]
      invariant forall j :: i <= j < result.Length ==> result[j] == old(result[j])
    {
      result[i] := OrWord(a[i], b[i]);
    }
  }

  method BitmapXor(a: seq<Word>, b: seq<Word>, result: array<Word>)
    modifies result
    ensures var n := Min(result.Length, Min(|a|, |b|));
      result[..] == Xor(a, b)[..n] + old(result[..])[n..]
  {
    var len := Min(|a|, Min(|b|, result.Length));
    hide AndWord, OrWord, XorWord, Ones;
    for i := 0 to len
      invariant forall j :: 0 <= j < i ==> result[j] == Xor(a, b)[j]
      invariant forall j :: i <= j < result.Length ==> result[j] == old(result[j])
    {
      result[i] := XorWord(a[i], b[i]);
    }
  }

  method IntersectionSize(a: seq<Word>, b: seq<Word>) returns (count: nat)
    ensures count == |SetOf(a) * SetOf(b)|
  {
    var len := Min(|a|, |b|);
    count := 0;
    hide AndWord, OrWord, XorWord, Ones;
    for i := 0 to len
      invariant count == Popcount(And(a, b)[..i])
    {
      count := count + Ones(AndWord(a[i], b[i]));
      assert And(a, b)[..i + 1][..i] == And(a, b)[..i] && And(a, b)[..i + 1][i] == AndWord(a[i], b[i]);
    }
    assert And(a, b)[..len] == And(a, b);
    SizesAreExactlyWhen(a, b);
  }

  method UnionSize(a: seq<Word>, b: seq<Word>) returns (count: nat)
    ensures count == |SetOf(a) + SetOf(b)| <==> Popcount(Tail(a, b)) == 0
    ensures Popcount(a) + Popcount(b) == |SetOf(a) * SetOf(b)| + count + Popcount(Tail(a, b))
  {
    var len := Min(|a|, |b|);
    count := 0;
    hide AndWord, OrWord, XorWord, Ones;
    for i := 0 to len
      invariant count == Popcount(Or(a, b)[..i])
    {
      count := count + Ones(OrWord(a[i], b[i]));
      assert Or(a, b)[..i + 1][..i] == Or(a, b)[..i] && Or(a, b)[..i + 1][i] == OrWord(a[i], b[i]);
    }
    assert Or(a, b)[..len] == Or(a, b);
    SizesAreExactlyWhen(a, b);
    SizesAddUp(a, b);
  }

  method FindFirstSet(bitmap: seq<Word>) returns (r: Option<nat>)
    ensures r == if AllSet(bitmap) == [] then None else Some(AllSet(bitmap)[0])
  {
    for i := 0 to |bitmap|
      invariant AllSet(bitmap[..i]) == []
    {
      var word := bitmap[i];
      assert bitmap[..i + 1][..i] == bitmap[..i];
      if true in word {
        ClearLowest(word, 64 * i, TrailingZeros(word));
        assert AllSet(bitmap[..i + 1])[0] == 64 * i + TrailingZeros(word);
        AllSetPrefix(bitmap, i + 1);
        return Some(i * 64 + TrailingZeros(word));
      }
      NoPositions(word, 64 * i);
    }
    assert bitmap[..|bitmap|] == bitmap;
    return None;
  }

  lemma {:induction false} AllSetPrefix(words: seq<Word>, n: nat)
    requires n <= |words|
    ensures AllSet(words[..n]) <= AllSet(words)
  {
    if n == |words| {
      assert words[..n] == words;
    } else {
      var front := words[..|words| - 1];
      AllSetPrefix(front, n);
      assert front[..n] == words[..n];
    }
  }

  method FindAllSet(bitmap: seq<Word>) returns (result: seq<nat>)
    ensures result == AllSet(bitmap)
  {
    result := [];
    for i := 0 to |bitmap|
      invariant result == AllSet(bitmap[..i])
    {
      assert bitmap[..i + 1][..i] == bitmap[..i];
      ghost var before := result;
      var w := bitmap[i];
      while true in w
        invariant result + Positions(w, 64 * i) == before + Positions(bitmap[i], 64 * i)
        decreases |Positions(w, 64 * i)|
      {
        var bit := TrailingZeros(w);
        ClearLowest(w, 64 * i, bit);
        result := result + [i * 64 + bit];
        w := Cleared(w, bit);
      }
      NoPositions(w, 64 * i);
    }
    assert bitmap[..|bitmap|] == bitmap;
  }

  // ---------------------------------------------------------------- merging sorted lists

  function Merge(a: seq<nat>, b: seq<nat>): seq<nat>
    decreases |a| + |b|
  {
    if a == [] then b
    else if b == [] then a
    else if a[0] < b[0] then [a[0]] + Merge(a[1..], b)
    else if a[0] > b[0] then [b[0]] + Merge(a, b[1..])
    else [a[0]] + Merge(a[1..], b[1..])
  }

  lemma {:induction false} MergeElements(a: seq<nat>, b: seq<nat>)
    ensures forall x :: x in Merge(a, b) <==> x in a || x in b
    decreases |a| + |b|
  {
    if a != [] && b != [] {
      assert a == [a[0]] + a[1..] && b == [b[0]] + b[1..];
      if a[0] < b[0] {
        MergeElements(a[1..], b);
      } else if a[0] > b[0] {
        MergeElements(a, b[1..]);
      } else {
        MergeElements(a[1..], b[1..]);
      }
    }
  }

  /** Merging two strictly increasing lists gives the strictly increasing list of their union. */
  lemma {:induction false} MergeIncreasing(a: seq<nat>, b: seq<nat>)
    requires Increasing(a) && Increasing(b)
    ensures Increasing(Merge(a, b))
    decreases |a| + |b|
  {
    if a != [] && b != [] {
      if a[0] < b[0] {
        MergeIncreasing(a[1..], b);
        Prepend(a[0], a[1..], b);
      } else if a[0] > b[0] {
        MergeIncreasing(a, b[1..]);
        Prepend(b[0], a, b[1..]);
      } else {
        MergeIncreasing(a[1..], b[1..]);
        Prepend(a[0], a[1..], b[1..]);
      }
    }
  }

  lemma Prepend(x: nat, a: seq<nat>, b: seq<nat>)
    requires Increasing(Merge(a, b)) && (forall y <- a :: x < y) && (forall y <- b :: x < y)
    ensures Increasing([x] + Merge(a, b))
  {
    MergeElements(a, b);
    forall j | 0 <= j < |Merge(a, b)| ensures x < Merge(a, b)[j] {
      assert Merge(a, b)[j] in Merge(a, b);
    }
  }

  /** Merging the position lists of two bitmaps lists the union, in order. */
  lemma MergeOfBitmaps(a: seq<Word>, b: seq<Word>)
    requires |a| == |b|
    ensures Merge(AllSet(a), AllSet(b)) == AllSet(Or(a, b))
  {
    AllSetIsExact(a);
    AllSetIsExact(b);
    AllSetIsExact(Or(a, b));
    MergeElements(AllSet(a), AllSet(b));
    MergeIncreasing(AllSet(a), AllSet(b));
    OperationsAreSetOperations(a, b);
    InRange(a);
    InRange(b);
    hide SetOf, AllSet, Merge, Popcount;
    IncreasingUnique(Merge(AllSet(a), AllSet(b)), AllSet(Or(a, b)));
  }

  lemma {:induction false} IncreasingUnique(s: seq<nat>, t: seq<nat>)
    requires Increasing(s) && Increasing(t) && forall x :: x in s <==> x in t
    ensures s == t
  {
    assert t != [] ==> t[0] in t;
    if s != [] {
      assert s[|s| - 1] in t;
      SameLast(s, t);
      var last := s[|s| - 1];
      var s', t' := s[..|s| - 1], t[..|t| - 1];
      WithoutLast(s);
      WithoutLast(t);
      forall x: nat ensures x in s' <==> x in t' {
        assert x in s <==> x in t;
        assert x in s' <==> x in s && x != last;
        assert x in t' <==> x in t && x != last;
      }
      hide *;
      IncreasingUnique(s', t');
      assert s == s' + [last] && t == t' + [last];
    }
  }

  lemma WithoutLast(s: seq<nat>)
    requires s != [] && Increasing(s)
    ensures Increasing(s[..|s| - 1])
    ensures forall x :: x in s[..|s| - 1] <==> x in s && x != s[|s| - 1]
  {
    assert s == s[..|s| - 1] + [s[|s| - 1]];
  }

  lemma SameLast(s: seq<nat>, t: seq<nat>)
    requires Increasing(s) && Increasing(t) && s != [] && t != [] && forall x :: x in s <==> x in t
    ensures s[|s| - 1] == t[|t| - 1]
  {
    assert s[|s| - 1] in s && t[|t| - 1] in t;
  }

  /** What one turn of the merging loop moves from the operands to the result `s`. */
  lemma MergeStep(s: seq<nat>, a: seq<nat>, b: seq<nat>, i: nat, j: nat)
    requires i < |a| && j < |b|
    ensures s + Merge(a[i..], b[j..]) ==
      if a[i] < b[j] then s + [a[i]] + Merge(a[i + 1..], b[j..])
      else if a[i] > b[j] then s + [b[j]] + Merge(a[i..], b[j + 1..])
      else s + [a[i]] + Merge(a[i + 1..], b[j + 1..])
  {
    assert a[i..][1..] == a[i + 1..] && b[j..][1..] == b[j + 1..];
    if a[i] < b[j] {
      Regroup(s, a[i], Merge(a[i + 1..], b[j..]));
    } else if a[i] > b[j] {
      Regroup(s, b[j], Merge(a[i..], b[j + 1..]));
    } else {
      Regroup(s, a[i], Merge(a[i + 1..], b[j + 1..]));
    }
  }

  lemma Regroup(s: seq<nat>, x: nat, t: seq<nat>)
    ensures (s + [x]) + t == s + ([x] + t)
  {
  }

  lemma MergeEnd(a: seq<nat>, b: seq<nat>)
    ensures forall i, j :: 0 <= i <= |a| && 0 <= j <= |b| && (i == |a| || j == |b|) ==>
      Merge(a[i..], b[j..]) == a[i..] + b[j..]
  {
  }

  method MergeSorted(a: seq<nat>, b: seq<nat>) returns (result: seq<nat>)
    ensures result == Merge(a, b)
    ensures forall x :: x in result <==> x in a || x in b
    ensures Increasing(a) && Increasing(b) ==> Increasing(result)
  {
    MergeEnd(a, b);
    hide *;
    result := [];
    var i, j := 0, 0;
    assert Merge(a[0..], b[0..]) == Merge(a, b) by { assert a[0..] == a && b[0..] == b; }
    while i < |a| && j < |b|
      invariant i <= |a| && j <= |b|
      invariant result + Merge(a[i..], b[j..]) == Merge(a, b)
    {
      MergeStep(result, a, b, i, j);
      if a[i] < b[j] {
        result := result + [a[i]];
        i := i + 1;
      } else if a[i] > b[j] {
        result := result + [b[j]];
        j := j + 1;
      } else {
        result := result + [a[i]];
        i, j := i + 1, j + 1;
      }
    }
    assert result + (a[i..] + b[j..]) == (result + a[i..]) + b[j..];
    result := result + a[i..];
    result := result + b[j..];
    assert result == Merge(a, b);
    MergeElements(a, b);
    if Increasing(a) && Increasing(b) {
      MergeIncreasing(a, b);
    }
  }
}
