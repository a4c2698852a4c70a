/** The greedy throttle that decides which speedmaps become snapshots. Times are in nanoseconds. */
module Throttle {

  const MIN_GAP: int := 120_000_000_000  // two minutes

  // Consecutive times are more than MIN_GAP apart, the first one counted from `last`.
  ghost predicate Spaced(last: int, times: seq<int>)
    decreases times
  {
    times == [] || (times[0] - last > MIN_GAP && Spaced(times[0], times[1..]))
  }

  ghost predicate Subsequence(xs: seq<int>, ys: seq<int>) {
    xs == [] || (ys != [] && ((xs[0] == ys[0] && Subsequence(xs[1..], ys[1..])) || Subsequence(xs, ys[1..])))
  }

  ghost predicate Nondecreasing(times: seq<int>) {
    forall i, j :: 0 <= i < j < |times| ==> times[i] <= times[j]
  }

  // The times of the snapshots emitted for speedmaps at the given times.
  function Greedy(last: int, times: seq<int>): seq<int>
    decreases times
  {
    if times == [] then []
    else if times[0] - last > MIN_GAP then [times[0]] + Greedy(times[0], times[1..])
    else Greedy(last, times[1..])
  }

  lemma {:induction false} SpacedMeans(last: int, times: seq<int>)
    requires Spaced(last, times)
    ensures forall i, j :: 0 <= i < j < |times| ==> times[j] - times[i] > 2 * 60 * 1_000_000_000
    ensures forall i :: 0 <= i < |times| ==> times[i] - last > 2 * 60 * 1_000_000_000
    decreases times
  {
    if times != [] {
      SpacedMeans(times[0], times[1..]);
      assert forall i :: 1 <= i < |times| ==> times[i] == times[1..][i - 1];
    }
  }

  /** Whatever the timestamps are, the emitted times are some of them, in order, more than two minutes apart. */
  lemma {:induction false} GreedySpaced(last: int, times: seq<int>)
    ensures Spaced(last, Greedy(last, times)) && Subsequence(Greedy(last, times), times)
    decreases times
  {
    if times != [] {
      if times[0] - last > MIN_GAP {
        GreedySpaced(times[0], times[1..]);
        assert Greedy(last, times)[1..] == Greedy(times[0], times[1..]);
      } else {
        GreedySpaced(last, times[1..]);
      }
    }
  }

  lemma {:induction false} SubsequenceHolds(xs: seq<int>, ys: seq<int>)
    requires Subsequence(xs, ys)
    ensures forall x :: x in xs ==> x in ys
  {
    if xs != [] {
      if xs[0] == ys[0] && Subsequence(xs[1..], ys[1..]) {
        SubsequenceHolds(xs[1..], ys[1..]);
        assert xs == [xs[0]] + xs[1..];
      } else {
        SubsequenceHolds(xs, ys[1..]);
      }
    }
  }

  lemma {:induction false} TailIsSubsequence(xs: seq<int>, ys: seq<int>)
    requires Subsequence(xs, ys) && xs != []
    ensures ys != [] && Subsequence(xs[1..], ys[1..])
  {
    if !(xs[0] == ys[0] && Subsequence(xs[1..], ys[1..])) {
      TailIsSubsequence(xs, ys[1..]);
      DropSubsequence(xs[1..], ys[1..]);
    }
  }

  lemma DropSubsequence(xs: seq<int>, ys: seq<int>)
    requires ys != [] && Subsequence(xs, ys[1..])
    ensures Subsequence(xs, ys)
  {
  }

  // ----- timestamps that go back -----

  // Taking a rules out both b and c, which are far enough apart from each other.
  predicate Blocks(last: int, a: int, b: int, c: int) {
    a - last > MIN_GAP && b - last > MIN_GAP && c - b > MIN_GAP && c - a <= MIN_GAP
  }

  ghost predicate NoBlock(last: int, times: seq<int>) {
    forall i, j, k :: 0 <= i < j < k < |times| ==> !Blocks(last, times[i], times[j], times[k])
  }

  // Timestamps that do not go back block nothing.
  lemma NondecreasingNoBlock(last: int, times: seq<int>)
    requires Nondecreasing(times)
    ensures NoBlock(last, times)
  {
  }

  lemma NoBlockRest(last: int, times: seq<int>)
    requires times != [] && NoBlock(last, times)
    ensures NoBlock(last, times[1..])
    ensures times[0] - last > MIN_GAP ==> NoBlock(times[0], times[1..])
  {
    var rest := times[1..];
    forall i, j, k | 0 <= i < j < k < |rest|
      ensures !Blocks(last, rest[i], rest[j], rest[k])
      ensures times[0] - last > MIN_GAP ==> !Blocks(times[0], rest[i], rest[j], rest[k])
    {
      assert !Blocks(last, times[i + 1], times[j + 1], times[k + 1]);
    }
  }

  // The first two elements of a subsequence are found at two places, one after the other.
  lemma {:induction false} Places(xs: seq<int>, ys: seq<int>) returns (j: nat, k: nat)
    requires Subsequence(xs, ys) && |xs| >= 2
    ensures j < k < |ys| && ys[j] == xs[0] && ys[k] == xs[1]
  {
    if xs[0] == ys[0] && Subsequence(xs[1..], ys[1..]) {
      SubsequenceHolds(xs[1..], ys[1..]);
      assert xs[1..][0] in ys[1..];
      var i :| 0 <= i < |ys[1..]| && ys[1..][i] == xs[1];
      j, k := 0, i + 1;
    } else {
      j, k := Places(xs, ys[1..]);
      j, k := j + 1, k + 1;
    }
  }

  // Having taken h, whatever was picked instead of it still leaves the rest of the picks open.
  lemma SpacedAfterHead(last: int, h: int, rest: seq<int>, picked: seq<int>)
    requires NoBlock(last, [h] + rest) && h - last > MIN_GAP
    requires picked != [] && Subsequence(picked, [h] + rest) && Spaced(last, picked)
    ensures Spaced(h, picked[1..])
  {
    if |picked| > 1 && picked[0] < h {
      assert ([h] + rest)[1..] == rest;
      var j, k := Places(picked, rest);
      assert !Blocks(last, ([h] + rest)[0], ([h] + rest)[j + 1], ([h] + rest)[k + 1]);
      assert picked[1..][0] == picked[1];
    }
  }

  lemma {:induction false} GreedyIsOptimalWithoutBlocks(last: int, times: seq<int>, picked: seq<int>)
    requires NoBlock(last, times) && Subsequence(picked, times) && Spaced(last, picked)
    ensures |picked| <= |Greedy(last, times)|
    decreases |times|
  {
    if picked != [] {
      var h, rest := times[0], times[1..];
      NoBlockRest(last, times);
      if h - last > MIN_GAP {
        assert times == [h] + rest;
        SpacedAfterHead(last, h, rest, picked);
        TailIsSubsequence(picked, times);
        GreedyIsOptimalWithoutBlocks(h, rest, picked[1..]);
      } else {
        GreedyIsOptimalWithoutBlocks(last, rest, picked);
      }
    }
  }

  /** A block costs a snapshot: one is emitted where two were possible. */
  lemma BlockLoses(last: int, a: int, b: int, c: int)
    requires Blocks(last, a, b, c)
    ensures Subsequence([b, c], [a, b, c]) && Spaced(last, [b, c])
    ensures Greedy(last, [a, b, c]) == [a]
  {
    var times, picked := [a, b, c], [b, c];
    assert times[1..] == picked && picked[1..] == [c] && [c][1..] == [];
    assert Spaced(b, [c]) && Subsequence([c], [c]) && Subsequence(picked, picked);
    assert Greedy(a, [c]) == [] && Greedy(a, picked) == [];
  }

  // A single time found in a sequence.
  lemma {:induction false} OneIsSubsequence(ys: seq<int>, k: nat)
    requires k < |ys|
    ensures Subsequence([ys[k]], ys)
  {
    assert [ys[k]][1..] == [];
    if k > 0 { OneIsSubsequence(ys[1..], k - 1); }
  }

  lemma {:induction false} TwoAreSubsequence(ys: seq<int>, j: nat, k: nat)
    requires j < k < |ys|
    ensures Subsequence([ys[j], ys[k]], ys)
  {
    assert [ys[j], ys[k]][1..] == [ys[k]];
    if j > 0 { TwoAreSubsequence(ys[1..], j - 1, k - 1); } else { OneIsSubsequence(ys[1..], k - 1); }
  }

  lemma {:induction false} ThreeAreSubsequence(ys: seq<int>, i: nat, j: nat, k: nat)
    requires i < j < k < |ys|
    ensures Subsequence([ys[i], ys[j], ys[k]], ys)
  {
    assert [ys[i], ys[j], ys[k]][1..] == [ys[j], ys[k]];
    if i > 0 {
      ThreeAreSubsequence(ys[1..], i - 1, j - 1, k - 1);
    } else {
      TwoAreSubsequence(ys[1..], j - 1, k - 1);
    }
  }

  // Where the elements of a subsequence are found.
  lemma {:induction false} PlaceOfAll(xs: seq<int>, ys: seq<int>) returns (at: seq<nat>)
    requires Subsequence(xs, ys)
    ensures |at| == |xs| && forall i :: 0 <= i < |xs| ==> at[i] < |ys| && ys[at[i]] == xs[i]
    ensures forall i, j :: 0 <= i < j < |at| ==> at[i] < at[j]
  {
    if xs == [] {
      at := [];
    } else if xs[0] == ys[0] && Subsequence(xs[1..], ys[1..]) {
      var rest := PlaceOfAll(xs[1..], ys[1..]);
      at := [0] + seq(|rest|, i requires 0 <= i < |rest| => rest[i] + 1);
    } else {
      var rest := PlaceOfAll(xs, ys[1..]);
      at := seq(|rest|, i requires 0 <= i < |rest| => rest[i] + 1);
    }
  }

  lemma NoBlockInSubsequence(last: int, sub: seq<int>, times: seq<int>)
    requires NoBlock(last, times) && Subsequence(sub, times)
    ensures NoBlock(last, sub)
  {
    var at := PlaceOfAll(sub, times);
    forall i, j, k | 0 <= i < j < k < |sub| ensures !Blocks(last, sub[i], sub[j], sub[k]) {
      assert !Blocks(last, times[at[i]], times[at[j]], times[at[k]]);
    }
  }

  // No spaced choice among these times is larger than the throttle's.
  ghost predicate Optimal(last: int, times: seq<int>) {
    forall picked :: Subsequence(picked, times) && Spaced(last, picked) ==> |picked| <= |Greedy(last, times)|
  }

  /** The throttle emits as many snapshots as possible for these times, whichever of them arrive, exactly
      when none of them blocks two others. */
  lemma OptimalExactlyWithoutBlocks(last: int, times: seq<int>)
    ensures NoBlock(last, times) <==> forall sub :: Subsequence(sub, times) ==> Optimal(last, sub)
  {
    if NoBlock(last, times) {
      forall sub, picked | Subsequence(sub, times) && Subsequence(picked, sub) && Spaced(last, picked)
        ensures |picked| <= |Greedy(last, sub)|
      {
        NoBlockInSubsequence(last, sub, times);
        GreedyIsOptimalWithoutBlocks(last, sub, picked);
      }
    } else {
      var i, j, k :| 0 <= i < j < k < |times| && Blocks(last, times[i], times[j], times[k]);
      ThreeAreSubsequence(times, i, j, k);
      BlockLoses(last, times[i], times[j], times[k]);
      assert !Optimal(last, [times[i], times[j], times[k]]);
    }
  }

  /** For nondecreasing timestamps no choice of times more than two minutes apart emits more snapshots. */
  lemma GreedyIsOptimal(last: int, times: seq<int>)
    requires Nondecreasing(times)
    ensures Optimal(last, times)
  {
    NondecreasingNoBlock(last, times);
    forall picked | Subsequence(picked, times) && Spaced(last, picked)
      ensures |picked| <= |Greedy(last, times)|
    {
      GreedyIsOptimalWithoutBlocks(last, times, picked);
    }
  }

  /** The throttle lets the first time through exactly if it is more than two minutes after the last one. */
  lemma TwoMinutes(last: int, times: seq<int>)
    requires times != []
    ensures times[0] > last + 2 * 60 * 1_000_000_000
       <==> Greedy(last, times) != [] && Greedy(last, times)[0] == times[0]
  {
    GreedySpaced(last, times);
  }
}
