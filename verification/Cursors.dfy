/** backend/cursors/shuffle.go and backend/cursors/randomized_cursor.go: the seeded block shuffle and
    the page cursor that selects the suffix it is applied to. */
module Cursors {
  import opened Runs

  /** The random source of math/rand: for a seed and a length, the draw made at index i of a shuffle.
      `rand.Shuffle` swaps i, from the last index down to 1, with a draw in [0, i]; a source is any
      function, and a draw beyond i stands for i. */
  type Source = (int, nat, nat) -> nat

  function Draw(src: Source, seed: int, n: nat, i: nat): (j: nat)
    ensures j <= i
  {
    if src(seed, n, i) <= i then src(seed, n, i) else i
  }

  function Swapped<T>(s: seq<T>, i: nat, j: nat): (r: seq<T>)
    requires i < |s| && j < |s|
    ensures |r| == |s|
  {
    s[i := s[j]][j := s[i]]
  }

  /** The swaps at indices i, i-1, ..., 1. */
  function ShuffledFrom<T>(src: Source, seed: int, s: seq<T>, i: nat): (r: seq<T>)
    requires i == 0 || i < |s|
    ensures |r| == |s|
    decreases i
  {
    if i == 0 then s else ShuffledFrom(src, seed, Swapped(s, i, Draw(src, seed, |s|, i)), i - 1)
  }

  /** A fresh source is seeded for every call, so the result depends on seed and contents alone. */
  function Shuffled<T>(src: Source, seed: int, s: seq<T>): (r: seq<T>)
    ensures |r| == |s|
  {
    ShuffledFrom(src, seed, s, if |s| == 0 then 0 else |s| - 1)
  }

  /** The swap function that `shuffle` passes to `rand.Shuffle`, on the slice a[lo..hi]. */
  method SwapInSlice<T>(a: array<T>, lo: nat, hi: nat, i: nat, j: nat)
    requires lo <= hi <= a.Length && i < hi - lo && j < hi - lo
    modifies a
    ensures a[lo..hi] == Swapped(old(a[lo..hi]), i, j)
    ensures a[..lo] == old(a[..lo]) && a[hi..] == old(a[hi..])
  {
    a[lo + i], a[lo + j] := a[lo + j], a[lo + i];
  }

  /** `shuffle` on the slice a[lo..hi]: in place, touching nothing outside the slice. */
  method Shuffle<T>(a: array<T>, lo: nat, hi: nat, seed: int, src: Source)
    requires lo <= hi <= a.Length
    modifies a
    ensures a[lo..hi] == Shuffled(src, seed, old(a[lo..hi]))
    ensures a[..lo] == old(a[..lo]) && a[hi..] == old(a[hi..])
  {
    var i := if hi == lo then 0 else hi - lo - 1;
    while i > 0
      invariant 0 <= i && (i == 0 || i < hi - lo)
      invariant ShuffledFrom(src, seed, a[lo..hi], i) == Shuffled(src, seed, old(a[lo..hi]))
      invariant a[..lo] == old(a[..lo]) && a[hi..] == old(a[hi..])
    {
      SwapInSlice(a, lo, hi, i, Draw(src, seed, hi - lo, i));
      i := i - 1;
    }
  }

  lemma {:induction false} ShuffledFromPermutes<T>(src: Source, seed: int, s: seq<T>, i: nat)
    requires i == 0 || i < |s|
    ensures multiset(ShuffledFrom(src, seed, s, i)) == multiset(s)
    decreases i
  {
    if i > 0 {
      var s' := Swapped(s, i, Draw(src, seed, |s|, i));
      assert multiset(s') == multiset(s);
      ShuffledFromPermutes(src, seed, s', i - 1);
    }
  }

  // ---- The order is decided by seed and length ----

  function Picked<T>(s: seq<T>, p: seq<nat>): (r: seq<T>)
    requires forall k :: 0 <= k < |p| ==> p[k] < |s|
    ensures |r| == |p|
  {
    seq(|p|, k requires 0 <= k < |p| => s[p[k]])
  }

  function Identity(n: nat): seq<nat> { seq(n, k => k) }

  lemma {:induction false} ShuffledFromPicked<T>(src: Source, seed: int, s: seq<T>, p: seq<nat>, i: nat)
    requires forall k :: 0 <= k < |p| ==> p[k] < |s|
    requires i == 0 || i < |p|
    ensures forall k :: 0 <= k < |p| ==> ShuffledFrom<nat>(src, seed, p, i)[k] < |s|
    ensures ShuffledFrom(src, seed, Picked(s, p), i) == Picked(s, ShuffledFrom<nat>(src, seed, p, i))
    decreases i
  {
    if i > 0 {
      var p' := Swapped<nat>(p, i, Draw(src, seed, |p|, i));
      assert Swapped(Picked(s, p), i, Draw(src, seed, |p|, i)) == Picked(s, p');
      ShuffledFromPicked(src, seed, s, p', i - 1);
    }
  }

  /** Two lists of one length are reordered alike: the permutation comes from seed and length only. */
  lemma OrderIndependentOfContents<T>(src: Source, seed: int, s: seq<T>)
    ensures var p := Shuffled<nat>(src, seed, Identity(|s|));
      && (forall k :: 0 <= k < |s| ==> p[k] < |s|)
      && Shuffled(src, seed, s) == Picked(s, p)
  {
    assert Picked(s, Identity(|s|)) == s;
    ShuffledFromPicked(src, seed, s, Identity(|s|), if |s| == 0 then 0 else |s| - 1);
  }

  // ---- The segmented shuffle ----

  /** Conversion of a float to int: towards zero. */
  function Trunc(x: real): int {
    if x >= 0.0 then x.Floor else -((-x).Floor)
  }

  function Extra(segmentLength: int, randomFactor: real): int {
    Trunc(randomFactor * segmentLength as real)
  }

  /** e is x without its fraction. */
  predicate Truncates(x: real, e: int) {
    if x >= 0.0 then e as real <= x < (e + 1) as real else (e - 1) as real < x <= e as real
  }

  lemma TruncIff(x: real, e: int)
    ensures Truncates(x, e) <==> e == Trunc(x)
  {
  }

  /** A whole factor adds that many segments to a block. */
  lemma WholeFactor(segmentLength: nat, k: int)
    ensures segmentLength + Extra(segmentLength, k as real) == (k + 1) * segmentLength
  {
    var x := k as real * segmentLength as real;
    assert x == (k * segmentLength) as real;
    TruncIff(x, k * segmentLength);
  }

  /** When the loop of `ShuffleSegmentedArray` comes to an end; TerminatesIff justifies it. */
  predicate Terminates(n: nat, segmentLength: int, extra: int) {
    && extra >= 0
    && segmentLength + extra >= 0
    && (segmentLength + extra == 0 ==> n == 0)
  }

  function NextEnd(start: int, n: int, segmentLength: int, extra: int): int {
    Min(extra + Min(start + segmentLength, n), n)
  }

  /** The specification: cut into blocks of length b and shuffle each with the same seed. */
  function Segmented<T>(src: Source, seed: int, b: nat, s: seq<T>): (r: seq<T>)
    requires b > 0 || s == []
    ensures |r| == |s|
    decreases |s|
  {
    if |s| <= b then Shuffled(src, seed, s)
    else
      Shuffled(src, seed, s[..b]) + Segmented(src, seed, b, s[b..])
  }

  lemma SegmentedUnfold<T>(src: Source, seed: int, b: nat, s: seq<T>, start: nat, end: nat)
    requires b > 0 || s == []
    requires start <= end <= |s| && end == Min(start + b, |s|)
    ensures Segmented(src, seed, b, s[start..])
         == Shuffled(src, seed, s[start..end]) + if end == |s| then [] else Segmented(src, seed, b, s[end..])
  {
    var rest := s[start..];
    if |rest| <= b {
      assert s[start..end] == rest;
      assert Shuffled(src, seed, rest) + [] == Shuffled(src, seed, rest);
    } else {
      assert rest[..b] == s[start..end];
      assert rest[b..] == s[end..];
    }
  }

  /** Before the round at `start`: `result` holds the shuffled blocks and `cur` continues with the
      rest of the list, untouched. */
  ghost predicate RoundAt<T>(src: Source, seed: int, b: nat, s: seq<T>, cur: seq<T>, result: seq<T>, start: nat)
    requires b > 0 || s == []
  {
    && |result| == start <= |s|
    && cur == result + s[start..]
    && Segmented(src, seed, b, s) == result + Segmented(src, seed, b, s[start..])
  }

  lemma RoundDone<T>(src: Source, seed: int, b: nat, s: seq<T>, cur: seq<T>, result: seq<T>,
                     start: nat, end: nat, keys: seq<T>)
    requires b > 0 || s == []
    requires RoundAt(src, seed, b, s, cur, result, start)
    requires start <= end <= |s| && end == Min(start + b, |s|)
    requires keys == Shuffled(src, seed, cur[start..end])
    ensures end < |s| ==> RoundAt(src, seed, b, s, cur[..start] + keys + cur[end..], result + keys, end)
    ensures end == |s| ==> cur[..start] + keys + cur[end..] == result + keys == Segmented(src, seed, b, s)
  {
    SegmentedUnfold(src, seed, b, s, start, end);
    RestAfter(result, s, start, end);
    AppendAssociates(result, keys, if end == |s| then [] else Segmented(src, seed, b, s[end..]));
  }

  lemma AppendAssociates<T>(a: seq<T>, b: seq<T>, c: seq<T>)
    ensures a + (b + c) == a + b + c
  {
  }

  lemma ThreeParts<T>(s: seq<T>, start: nat, end: nat)
    requires start <= end <= |s|
    ensures s == s[..start] + s[start..end] + s[end..]
  {
  }

  lemma RestAfter<T>(result: seq<T>, s: seq<T>, start: nat, end: nat)
    requires |result| == start <= end <= |s|
    ensures (result + s[start..])[..start] == result
    ensures (result + s[start..])[start..end] == s[start..end]
    ensures (result + s[start..])[end..] == s[end..]
  {
  }

  /** One round of the loop: `keys := source[start:end]; keys = shuffle(keys, seed)`, where the slice
      shares the array. */
  method ShuffleRound<T>(source: array<T>, start: nat, end: nat, seed: int, src: Source,
                         ghost b: nat, ghost s: seq<T>, ghost result: seq<T>)
    returns (keys: seq<T>)
    requires b > 0 || s == []
    requires RoundAt(src, seed, b, s, source[..], result, start)
    requires start <= end <= source.Length == |s| && end == Min(start + b, |s|)
    modifies source
    ensures end < |s| ==> RoundAt(src, seed, b, s, source[..], result + keys, end)
    ensures end == |s| ==> source[..] == result + keys == Segmented(src, seed, b, s)
  {
    ghost var cur := source[..];
    assert source[start..end] == cur[start..end];
    Shuffle(source, start, end, seed, src);
    keys := source[start..end];
    ThreeParts(source[..], start, end);
    RoundDone(src, seed, b, s, cur, result, start, end, keys);
  }

  lemma {:induction false} FirstRound<T>(src: Source, seed: int, b: nat, s: seq<T>)
    requires b > 0 || s == []
    ensures RoundAt(src, seed, b, s, s, [], 0)
  {
    assert s[0..] == s;
    assert [] + Segmented(src, seed, b, s) == Segmented(src, seed, b, s);
  }

  lemma NextEndIs(start: nat, n: nat, segmentLength: int, extra: int)
    requires Terminates(n, segmentLength, extra) && start <= n && (start == n ==> n == 0)
    ensures var end := NextEnd(start, n, segmentLength, extra);
      start <= end <= n && end == Min(start + segmentLength + extra, n) && (start == end ==> n == 0)
  {
  }

  /** The loop of ShuffleSegmentedArray, with the random part of a block already converted to an int. */
  method ShuffleBlocks<T>(source: array<T>, segmentLength: int, extra: int, seed: int, src: Source)
    returns (result: seq<T>)
    requires Terminates(source.Length, segmentLength, extra)
    modifies source
    ensures result == Segmented(src, seed, segmentLength + extra, old(source[..]))
    ensures source[..] == result
  {
    result := [];
    ghost var s, b := source[..], segmentLength + extra;
    var start := 0;
    FirstRound(src, seed, b, s);
    while true
      invariant 0 <= start <= source.Length && (start == source.Length ==> source.Length == 0)
      invariant RoundAt(src, seed, b, s, source[..], result, start)
      decreases source.Length - start
    {
      var end := NextEnd(start, source.Length, segmentLength, extra);
      NextEndIs(start, source.Length, segmentLength, extra);
      var keys := ShuffleRound(source, start, end, seed, src, b, s, result);
      result := result + keys;
      if end >= source.Length {
        break;
      }
      start := end;
    }
  }

  /** `result` is `s` shuffled in blocks of a segment and as many entries more as the factor gives. */
  ghost predicate InBlocks<T>(
    src: Source, seed: int, segmentLength: int, randomFactor: real, s: seq<T>, result: seq<T>)
  {
    exists e :: Truncates(randomFactor * segmentLength as real, e) && Terminates(|s|, segmentLength, e)
                && result == Segmented(src, seed, segmentLength + e, s)
  }

  lemma {:induction false} InBlocksIff<T>(
    src: Source, seed: int, segmentLength: int, randomFactor: real, extra: int, s: seq<T>, result: seq<T>)
    requires extra == Extra(segmentLength, randomFactor) && Terminates(|s|, segmentLength, extra)
    ensures InBlocks(src, seed, segmentLength, randomFactor, s, result) <==>
      result == Segmented(src, seed, segmentLength + extra, s)
  {
    var x := randomFactor * segmentLength as real;
    TruncIff(x, extra);
    forall e | Truncates(x, e) ensures e == extra {
      TruncIff(x, e);
    }
  }

  /** Shuffles `source` block by block in place; the list it returns is the final contents. */
  method ShuffleSegmentedArray<T>(source: array<T>, segmentLength: int, randomFactor: real, seed: int, src: Source)
    returns (result: seq<T>)
    requires Terminates(source.Length, segmentLength, Extra(segmentLength, randomFactor))
    modifies source
    ensures source[..] == result
    ensures InBlocks(src, seed, segmentLength, randomFactor, old(source[..]), result)
  {
    ghost var s := source[..];
    var extra := Extra(segmentLength, randomFactor);
    result := ShuffleBlocks(source, segmentLength, extra, seed, src);
    InBlocksIff(src, seed, segmentLength, randomFactor, extra, s, result);
  }

  // ---- Termination, exactly ----

  datatype Progress = At(start: int) | Ended | Panicked

  /** Where the loop is after m rounds on a list of length n; slicing [start:end] panics if end < start. */
  function AfterBlocks(n: nat, segmentLength: int, extra: int, m: nat): Progress {
    if m == 0 then At(0)
    else
      match AfterBlocks(n, segmentLength, extra, m - 1)
      case At(start) =>
        var end := NextEnd(start, n, segmentLength, extra);
        if end < start then Panicked else if end >= n then Ended else At(end)
      case done => done
  }

  lemma {:induction false} NeverEnds(n: nat, segmentLength: int, extra: int, m: nat)
    requires !Terminates(n, segmentLength, extra)
    ensures AfterBlocks(n, segmentLength, extra, m) != Ended
    ensures extra >= 0 && AfterBlocks(n, segmentLength, extra, m).At? ==>
      AfterBlocks(n, segmentLength, extra, m).start == 0
  {
    if m > 0 {
      NeverEnds(n, segmentLength, extra, m - 1);
    }
  }

  lemma {:induction false} EndsFrom(n: nat, segmentLength: int, extra: int, m: nat, start: nat)
    requires Terminates(n, segmentLength, extra)
    requires AfterBlocks(n, segmentLength, extra, m) == At(start)
    ensures exists k :: AfterBlocks(n, segmentLength, extra, k) == Ended
    decreases n - start
  {
    var next := AfterBlocks(n, segmentLength, extra, m + 1);
    if next.At? {
      EndsFrom(n, segmentLength, extra, m + 1, next.start);
    }
  }

  /** A positive block length is not enough: the loop ends normally exactly when the random part of
      the block is not negative and the block is not empty, or the list is empty with it. */
  lemma TerminatesIff(n: nat, segmentLength: int, extra: int)
    ensures (exists m :: AfterBlocks(n, segmentLength, extra, m) == Ended) <==> Terminates(n, segmentLength, extra)
  {
    if Terminates(n, segmentLength, extra) {
      EndsFrom(n, segmentLength, extra, 0, 0);
    } else {
      forall m: nat ensures AfterBlocks(n, segmentLength, extra, m) != Ended {
        NeverEnds(n, segmentLength, extra, m);
      }
    }
  }

  /** Segments of 10 with a factor of -0.5 make blocks of 5, and a list of 12 is never finished. */
  lemma {:induction false} PositiveBlockMayNotEnd(m: nat)
    ensures 10 + Extra(10, -0.5) == 5
    ensures AfterBlocks(12, 10, Extra(10, -0.5), m) != Ended
  {
    NeverEnds(12, 10, -5, m);
  }

  // ---- Blocks and pages ----

  lemma {:induction false} SegmentedPermutes<T>(src: Source, seed: int, b: nat, s: seq<T>)
    requires b > 0 || s == []
    ensures multiset(Segmented(src, seed, b, s)) == multiset(s)
    decreases |s|
  {
    if |s| <= b {
      ShuffledFromPermutes(src, seed, s, if |s| == 0 then 0 else |s| - 1);
    } else {
      var block, rest := Shuffled(src, seed, s[..b]), Segmented(src, seed, b, s[b..]);
      ShuffledFromPermutes(src, seed, s[..b], b - 1);
      SegmentedPermutes(src, seed, b, s[b..]);
      PartsPermute(block, rest, s, b);
    }
  }

  lemma PartsPermute<T>(block: seq<T>, rest: seq<T>, s: seq<T>, b: nat)
    requires b <= |s| && multiset(block) == multiset(s[..b]) && multiset(rest) == multiset(s[b..])
    ensures multiset(block + rest) == multiset(s)
  {
    assert s == s[..b] + s[b..];
  }

  /** The start of the block that index k falls into. */
  function BlockStart(k: nat, b: nat): (r: nat)
    requires b > 0
    ensures r <= k < r + b
    ensures r > 0 ==> BlockStart(r, b) == r
  {
    if k < b then 0 else b + BlockStart(k - b, b)
  }

  predicate Aligned(k: nat, b: nat)
    requires b > 0
  {
    BlockStart(k, b) == k
  }

  /** The boundaries are the multiples of the block length. */
  lemma {:induction false} AlignedIffMultiple(k: nat, b: nat)
    requires b > 0
    ensures Aligned(k, b) <==> k % b == 0
  {
    if k < b {
      Remainder(k, b, 0, k);
    } else {
      AlignedIffMultiple(k - b, b);
      assert k % b == (k - b) % b by {
        OneBlockLess(k, b);
      }
    }
  }

  lemma OneBlockLess(k: nat, b: nat)
    requires 0 < b <= k
    ensures k % b == (k - b) % b
  {
    var q, r := (k - b) / b, (k - b) % b;
    assert k == (q + 1) * b + r;
    Remainder(k, b, q + 1, r);
  }

  lemma Remainder(k: int, b: int, q: int, r: int)
    requires 0 <= r < b && k == q * b + r
    ensures k % b == r
  {
    var d := q - k / b;
    assert d * b == k % b - r;
    assert d != 0 ==> d * b >= b || d * b <= -b;
  }

  /** Reading from a block boundary on is the same as shuffling the rest alone. */
  lemma {:induction false} SegmentedSuffix<T>(src: Source, seed: int, b: nat, s: seq<T>, k: nat)
    requires b > 0 && k <= |s| && Aligned(k, b)
    ensures Segmented(src, seed, b, s)[k..] == Segmented(src, seed, b, s[k..])
    decreases |s|
  {
    if k == 0 {
      assert s[0..] == s;
    } else {
      if |s| <= b {
        return;
      }
      var block, rest := Shuffled(src, seed, s[..b]), s[b..];
      SegmentedSuffix(src, seed, b, rest, k - b);
      DropDrop(s, b, k);
      DropAppend(block, Segmented(src, seed, b, rest), k);
    }
  }

  lemma DropDrop<T>(s: seq<T>, b: nat, k: nat)
    requires b <= k <= |s|
    ensures s[b..][k - b..] == s[k..]
  {
  }

  lemma DropAppend<T>(a: seq<T>, b: seq<T>, k: nat)
    requires |a| <= k <= |a| + |b|
    ensures (a + b)[k..] == b[k - |a|..]
  {
  }

  lemma SegmentedFirstBlock<T>(src: Source, seed: int, b: nat, s: seq<T>)
    requires b > 0
    ensures Segmented(src, seed, b, s)[..Min(b, |s|)] == Shuffled(src, seed, s[..Min(b, |s|)])
  {
    if |s| <= b {
      assert s[..|s|] == s;
    }
  }

  lemma SegmentedPrefixPermutes<T>(src: Source, seed: int, b: nat, s: seq<T>, k: nat)
    requires b > 0 && k <= |s| && Aligned(k, b)
    ensures multiset(Segmented(src, seed, b, s)[..k]) == multiset(s[..k])
  {
    var feed := Segmented(src, seed, b, s);
    SegmentedSuffix(src, seed, b, s, k);
    SegmentedPermutes(src, seed, b, s);
    SegmentedPermutes(src, seed, b, s[k..]);
    MultisetPrefix(feed, k);
    MultisetPrefix(s, k);
  }

  lemma MultisetPrefix<T>(s: seq<T>, k: nat)
    requires k <= |s|
    ensures multiset(s[..k]) == multiset(s) - multiset(s[k..])
  {
    assert s == s[..k] + s[k..];
  }

  /** Every element stays in its own block: block boundaries of input and output enclose the same
      elements, each with its multiplicity. */
  lemma {:induction false} ElementsStayInBlock<T>(src: Source, seed: int, b: nat, s: seq<T>, k: nat)
    requires b > 0 && k <= |s| && Aligned(k, b)
    ensures var end := Min(k + b, |s|);
      multiset(Segmented(src, seed, b, s)[k..end]) == multiset(s[k..end])
  {
    SegmentedSuffix(src, seed, b, s, k);
    FirstBlockPermutes(src, seed, b, s[k..]);
    SlicesOfRests(Segmented(src, seed, b, s), Segmented(src, seed, b, s[k..]), s, k, Min(k + b, |s|));
  }

  lemma SlicesOfRests<T>(whole: seq<T>, rest: seq<T>, s: seq<T>, k: nat, end: nat)
    requires k <= end <= |s| == |whole| && whole[k..] == rest
    requires multiset(rest[..end - k]) == multiset(s[k..][..end - k])
    ensures multiset(whole[k..end]) == multiset(s[k..end])
  {
    SliceOfRest(whole, k, end);
    SliceOfRest(s, k, end);
  }

  lemma {:induction false} FirstBlockPermutes<T>(src: Source, seed: int, b: nat, s: seq<T>)
    requires b > 0
    ensures multiset(Segmented(src, seed, b, s)[..Min(b, |s|)]) == multiset(s[..Min(b, |s|)])
  {
    SegmentedFirstBlock(src, seed, b, s);
    ShuffledFromPermutes(src, seed, s[..Min(b, |s|)], if s == [] then 0 else Min(b, |s|) - 1);
  }

  lemma SliceOfRest<T>(s: seq<T>, k: nat, end: nat)
    requires k <= end <= |s|
    ensures s[k..][..end - k] == s[k..end]
  {
  }

  /** Shuffles of length n exchange index m with index 0 and move nothing else. */
  ghost predicate OneSwap(src: Source, seed: int, n: nat, m: nat) {
    forall i: nat :: i < n ==> Draw(src, seed, n, i) == if i == m then 0 else i
  }

  lemma {:induction false} OneSwapShuffle<T>(src: Source, seed: int, s: seq<T>, m: nat, i: nat)
    requires OneSwap(src, seed, |s|, m) && 0 < m < |s| && i < |s|
    ensures i < m ==> ShuffledFrom(src, seed, s, i) == s
    ensures i >= m ==> ShuffledFrom(src, seed, s, i)[m] == s[0]
    decreases i
  {
    if i > 0 {
      var j := Draw(src, seed, |s|, i);
      assert i != m ==> j == i;
      OneSwapShuffle(src, seed, Swapped(s, i, j), m, i - 1);
    }
  }

  lemma FirstBlockEntry(src: Source, seed: int, b: nat, u: seq<nat>, m: nat)
    requires 0 < m < Min(b, |u|) && OneSwap(src, seed, Min(b, |u|), m)
    ensures Segmented(src, seed, b, u)[m] == u[0]
  {
    var block := u[..Min(b, |u|)];
    assert Segmented(src, seed, b, u)[..|block|] == Shuffled(src, seed, block) by {
      SegmentedFirstBlock(src, seed, b, u);
    }
    assert Shuffled(src, seed, block)[m] == block[0] by {
      OneSwapShuffle(src, seed, block, m, |block| - 1);
    }
    EntryOfRest(Segmented(src, seed, b, u), |block|, Shuffled(src, seed, block), m);
  }

  /** The length of the block that index k of a list of length n falls into. */
  function BlockLength(k: nat, b: nat, n: nat): (r: nat)
    requires b > 0 && k < n
    ensures k - BlockStart(k, b) < r <= b
  {
    Min(b, n - BlockStart(k, b))
  }

  /** The source exchanges the ends of the part of k's block that lies before k. */
  ghost predicate Tells(src: Source, seed: int, b: nat, n: nat, k: nat)
    requires b > 0 && k < n
  {
    OneSwap(src, seed, BlockLength(k, b, n), k - BlockStart(k, b))
  }

  lemma UnalignedEntry(src: Source, seed: int, b: nat, n: nat, k: nat)
    requires b > 0 && k < n && !Aligned(k, b) && Tells(src, seed, b, n, k)
    ensures Segmented(src, seed, b, Identity(n))[k] == BlockStart(k, b)
  {
    var base := BlockStart(k, b);
    SegmentedSuffix(src, seed, b, Identity(n), base);
    FirstBlockEntry(src, seed, b, Identity(n)[base..], k - base);
    SameEntry(Segmented(src, seed, b, Identity(n)), base, k, Segmented(src, seed, b, Identity(n)[base..]));
  }

  lemma SameEntry<T>(whole: seq<T>, base: nat, k: nat, rest: seq<T>)
    requires base <= k < |whole| && whole[base..] == rest
    ensures whole[k] == rest[k - base]
  {
    assert whole[base..][k - base] == whole[k];
  }

  lemma EntryOfRest<T>(whole: seq<T>, end: nat, front: seq<T>, m: nat)
    requires end <= |whole| && whole[..end] == front && m < |front|
    ensures whole[m] == front[m]
  {
  }

  /** Off a block boundary a page can lose and repeat entries. */
  lemma UnalignedPageDiffers(src: Source, seed: int, b: nat, n: nat, k: nat)
    requires b > 0 && k < n && !Aligned(k, b) && Tells(src, seed, b, n, k)
    ensures Segmented(src, seed, b, Identity(n))[k..] != Segmented(src, seed, b, Identity(n)[k..])
  {
    UnalignedEntry(src, seed, b, n, k);
    NotInPage(src, seed, b, n, k, BlockStart(k, b));
    var whole := Segmented(src, seed, b, Identity(n));
    assert whole[k..][0] == whole[k];
  }

  lemma NotInPage(src: Source, seed: int, b: nat, n: nat, k: nat, x: nat)
    requires b > 0 && x < k < n
    ensures Segmented(src, seed, b, Identity(n)[k..])[0] != x
  {
    var rest := Identity(n)[k..];
    var page := Segmented(src, seed, b, rest);
    SegmentedPermutes(src, seed, b, rest);
    assert page[0] in multiset(page);
    assert page[0] in multiset(rest);
  }

  /** Exactly the block-aligned offsets (and the end of the list) can be paged from, whatever the
      random source, the seed and the entries are. */
  lemma PageableIffAligned(b: nat, n: nat, k: nat)
    requires b > 0 && k <= n
    ensures (forall src: Source, seed: int, s: seq<nat> :: |s| == n ==>
               Segmented(src, seed, b, s)[k..] == Segmented(src, seed, b, s[k..]))
            <==> Aligned(k, b) || k == n
  {
    if Aligned(k, b) || k == n {
      forall src: Source, seed: int, s: seq<nat> | |s| == n
        ensures Segmented(src, seed, b, s)[k..] == Segmented(src, seed, b, s[k..])
      {
        if Aligned(k, b) { SegmentedSuffix(src, seed, b, s, k); }
      }
    } else {
      var m := k - BlockStart(k, b);
      var src: Source := (seed: int, n: nat, i: nat) => if i == m then 0 else i;
      UnalignedPageDiffers(src, 0, b, n, k);
    }
  }

  // ---- The draws of math/rand ----

  const TWO_32: nat := 0x1_0000_0000

  /** `Uint32` values of a generator, by seed and position. */
  type Generator = (int, nat) -> nat

  /** `int31n` takes v without drawing again when the low half of v * n is not below n. */
  predicate Accepts(v: nat, n: nat) { v < TWO_32 && v * n % TWO_32 >= n }

  /** The draws of a shuffle shorter than 2^31 from a generator of which every value is accepted: the
      value at position n - 1 - i, scaled to [0, i]. */
  function DrawsOf(g: Generator): Source {
    (seed: int, n: nat, i: nat) => if i < n then g(seed, n - 1 - i) * (i + 1) / TWO_32 else 0
  }

  /** The value 1 at one position and the greatest one everywhere else. */
  function OneLow(position: int): Generator {
    (seed: int, at: nat) => if at == position then 1 else TWO_32 - 1
  }

  lemma ScaledValues(n: nat)
    requires 0 < n < 0x8000_0000
    ensures 1 * n / TWO_32 == 0 && Accepts(1, n)
    ensures (TWO_32 - 1) * n / TWO_32 == n - 1 && Accepts(TWO_32 - 1, n)
  {
    assert (TWO_32 - 1) * n == (n - 1) * TWO_32 + (TWO_32 - n);
  }

  /** Every value is taken at once in every draw of a shuffle of at most n elements. */
  ghost predicate AcceptedAtOnce(g: Generator, seed: int, n: nat) {
    forall at: nat, bound: nat :: 1 < bound <= n ==> Accepts(g(seed, at), bound)
  }

  lemma OneLowAccepted(position: int, seed: int, n: nat)
    requires n < 0x8000_0000
    ensures AcceptedAtOnce(OneLow(position), seed, n)
  {
    forall at: nat, bound: nat | 1 < bound <= n ensures Accepts(OneLow(position)(seed, at), bound) {
      ScaledValues(bound);
    }
  }

  lemma OneLowSwaps(seed: int, n: nat, m: nat)
    requires m < n < 0x8000_0000
    ensures OneSwap(DrawsOf(OneLow(n - 1 - m)), seed, n, m)
  {
    var src := DrawsOf(OneLow(n - 1 - m));
    forall i: nat | i < n ensures Draw(src, seed, n, i) == if i == m then 0 else i {
      ScaledValues(i + 1);
      assert src(seed, n, i) == if i == m then 0 else i;
    }
  }

  /** The draws that tell an unaligned page from the rest of the feed are draws of math/rand: the values
      of a generator, in their order, each accepted at once. */
  lemma GeneratorTellsPagesApart(seed: int, b: nat, n: nat, k: nat) returns (g: Generator)
    requires 0 < b && k < n < 0x8000_0000 && !Aligned(k, b)
    ensures AcceptedAtOnce(g, seed, n)
    ensures Segmented(DrawsOf(g), seed, b, Identity(n))[k..] != Segmented(DrawsOf(g), seed, b, Identity(n)[k..])
  {
    var length, m := BlockLength(k, b, n), k - BlockStart(k, b);
    g := OneLow(length - 1 - m);
    assert AcceptedAtOnce(g, seed, n) by {
      OneLowAccepted(length - 1 - m, seed, n);
    }
    assert Segmented(DrawsOf(g), seed, b, Identity(n))[k..] != Segmented(DrawsOf(g), seed, b, Identity(n)[k..]) by {
      OneLowSwaps(seed, length, m);
      UnalignedPageDiffers(DrawsOf(g), seed, b, n, k);
    }
  }

  // ---- The cursor ----

  datatype RandomizedCursor = RandomizedCursor(seed: Option<int>, randomFactor: real, currentIndex: int) {
    function NewWithOffset(offset: int): RandomizedCursor {
      RandomizedCursor(seed, randomFactor, offset)
    }
  }

  /** The entries that a cursor selects: those from its index on, none past the end. */
  function Suffix<K>(segments: seq<K>, index: nat): seq<K> {
    if |segments| < index then [] else segments[index..]
  }

  /** The selected entries in the order of the feed. */
  function Ordered<K>(src: Source, cursor: RandomizedCursor, keys: seq<K>, segmentLength: int): seq<K>
    requires cursor.seed.Some? ==> Terminates(|keys|, segmentLength, Extra(segmentLength, cursor.randomFactor))
  {
    if cursor.seed.None? then keys
    else Segmented(src, cursor.seed.value, segmentLength + Extra(segmentLength, cursor.randomFactor), keys)
  }

  /** What a reader sees from a cursor on. */
  function Feed<K>(src: Source, cursor: RandomizedCursor, segments: seq<K>, segmentLength: int): seq<K>
    requires cursor.currentIndex >= 0
    requires FeedDefined(cursor, |segments|, segmentLength)
  {
    Ordered(src, cursor, Suffix(segments, cursor.currentIndex), segmentLength)
  }

  predicate FeedDefined(cursor: RandomizedCursor, n: nat, segmentLength: int) {
    cursor.currentIndex >= 0 && cursor.seed.Some? ==>
      Terminates(Max(n - cursor.currentIndex, 0), segmentLength, Extra(segmentLength, cursor.randomFactor))
  }

  /** The copy of the suffix is a new array, so later shuffles never reach the caller's. A negative
      index, which a decoded cursor may have, makes the slice expression panic: that is None. */
  method ApplyRandomizedCursorTo<K(0)>(cursor: RandomizedCursor, keys: array<K>) returns (result: Option<array<K>>)
    ensures result.Some? <==> cursor.currentIndex >= 0
    ensures result.Some? ==> fresh(result.value)
    ensures result.Some? ==>
      result.value[..] == Suffix(keys[..], cursor.currentIndex)
  {
    if keys.Length < cursor.currentIndex {
      var empty := new K[0];
      return Some(empty);
    }
    if cursor.currentIndex < 0 {
      return None;
    }
    var size := keys.Length - cursor.currentIndex;
    var out := new K[size];
    for i := 0 to size
      invariant out[..i] == keys[cursor.currentIndex..][..i]
    {
      out[i] := keys[cursor.currentIndex + i];
    }
    result := Some(out);
  }

  /** The shuffle of the copy, if there is a seed. */
  method ShuffleKeys<K>(cursor: RandomizedCursor, keys: array<K>, segmentLength: int, src: Source)
    returns (feed: seq<K>)
    requires cursor.seed.Some? ==> Terminates(keys.Length, segmentLength, Extra(segmentLength, cursor.randomFactor))
    modifies keys
    ensures feed == Ordered(src, cursor, old(keys[..]), segmentLength)
  {
    ghost var selected := keys[..];
    if cursor.seed.None? {
      return keys[..];
    }
    feed := ShuffleSegmentedArray(keys, segmentLength, cursor.randomFactor, cursor.seed.value, src);
    InBlocksIsOrdered(src, cursor, selected, segmentLength, feed);
  }

  lemma {:induction false} InBlocksIsOrdered<K>(
    src: Source, cursor: RandomizedCursor, keys: seq<K>, segmentLength: int, feed: seq<K>)
    requires cursor.seed.Some? && Terminates(|keys|, segmentLength, Extra(segmentLength, cursor.randomFactor))
    requires InBlocks(src, cursor.seed.value, segmentLength, cursor.randomFactor, keys, feed)
    ensures feed == Ordered(src, cursor, keys, segmentLength)
  {
    var extra := Extra(segmentLength, cursor.randomFactor);
    InBlocksIff(src, cursor.seed.value, segmentLength, cursor.randomFactor, extra, keys, feed);
  }

  /** The feed, or a panic. It modifies nothing: the caller's array is never written. */
  method ApplyRandomizedCursorToSegments<K(0)>(
    cursor: RandomizedCursor, segments: array<K>, segmentLength: int, src: Source) returns (keys: Option<seq<K>>)
    requires FeedDefined(cursor, segments.Length, segmentLength)
    ensures keys == if cursor.currentIndex < 0 then None else Some(Feed(src, cursor, segments[..], segmentLength))
  {
    var copy := ApplyRandomizedCursorTo(cursor, segments);
    if copy.None? {
      return None;
    }
    var feed := ShuffleKeys(cursor, copy.value, segmentLength, src);
    return Some(feed);
  }

  lemma {:induction false} FeedFrom<K>(
    src: Source, cursor: RandomizedCursor, segments: seq<K>, segmentLength: int, k: nat)
    requires cursor.seed.Some? && k <= |segments|
    requires Terminates(1, segmentLength, Extra(segmentLength, cursor.randomFactor))
    ensures Feed(src, cursor.NewWithOffset(k), segments, segmentLength)
         == Segmented(src, cursor.seed.value, segmentLength + Extra(segmentLength, cursor.randomFactor), segments[k..])
  {
  }

  /** Every feed, seeded or not, holds exactly the entries from its cursor on. */
  lemma {:induction false} FeedPermutes<K>(
    src: Source, cursor: RandomizedCursor, segments: seq<K>, segmentLength: int)
    requires 0 <= cursor.currentIndex <= |segments|
    requires FeedDefined(cursor, |segments|, segmentLength)
    ensures multiset(Feed(src, cursor, segments, segmentLength)) == multiset(segments[cursor.currentIndex..])
  {
    var keys := Suffix(segments, cursor.currentIndex);
    if cursor.seed.Some? {
      var b := segmentLength + Extra(segmentLength, cursor.randomFactor);
      assert multiset(Segmented(src, cursor.seed.value, b, keys)) == multiset(keys) by {
        SegmentedPermutes(src, cursor.seed.value, b, keys);
      }
    }
  }

  /** Paging refines one whole feed: the feed from a block-aligned cursor is the rest of the feed from
      the start, so aligned pages put together lose nothing and repeat nothing. */
  lemma {:induction false} PagingRefinesFeed<K>(
    src: Source, cursor: RandomizedCursor, segments: seq<K>, segmentLength: int, k: nat)
    requires cursor.seed.Some? && k <= |segments|
    requires Terminates(1, segmentLength, Extra(segmentLength, cursor.randomFactor))
    requires Aligned(k, segmentLength + Extra(segmentLength, cursor.randomFactor))
    ensures Feed(src, cursor.NewWithOffset(k), segments, segmentLength)
         == Feed(src, cursor.NewWithOffset(0), segments, segmentLength)[k..]
    ensures multiset(Feed(src, cursor.NewWithOffset(0), segments, segmentLength)[..k]) == multiset(segments[..k])
  {
    var b := segmentLength + Extra(segmentLength, cursor.randomFactor);
    FeedFrom(src, cursor, segments, segmentLength, 0);
    FeedFrom(src, cursor, segments, segmentLength, k);
    assert segments[0..] == segments;
    SegmentedSuffix(src, cursor.seed.value, b, segments, k);
    SegmentedPrefixPermutes(src, cursor.seed.value, b, segments, k);
  }
}
