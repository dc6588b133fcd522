/** Splitting per-DOM data into bins of reconstructed distance. */
module Calculate {
  import opened Masks

  /** Width of a distance bin. */
  const BIN_WIDTH: nat := 20

  /** Upper end of the last distance bin. */
  const MAX_DIST: nat := 140

  /** The number of bins, `range(0, MAX_DIST, BIN_WIDTH)`. */
  const NUM_BINS: nat := 7

  /** The half-open bin starting at `lo` holds `x`. */
  predicate InBin(x: real, lo: int)
  {
    lo as real <= x < (lo + 20) as real
  }

  /** Entry `i` tells whether distance `i` falls in the bin starting at `lo`. */
  function BinMask(rd: seq<real>, lo: int): (m: seq<bool>)
    ensures |m| == |rd|
    ensures forall i :: 0 <= i < |rd| ==> (m[i] <==> InBin(rd[i], lo))
  {
    seq(|rd|, i requires 0 <= i < |rd| => InBin(rd[i], lo))
  }

  /** The bin key `(lo, hi)` and the data of bin `b`. */
  function Bin<T>(data: seq<T>, rd: seq<real>, b: nat): (bin: ((int, int), seq<T>))
    requires |data| == |rd|
    ensures bin.0 == (20 * b, 20 * b + BIN_WIDTH)
    ensures |bin.1| == |TrueIndices(BinMask(rd, 20 * b))| <= |data|
  {
    var lo := 20 * b;
    ((lo, lo + 20), Compress(data, BinMask(rd, lo)))
  }

  /** Split the data into the seven distance bins of width 20 from 0 to 140, in
      increasing order; an element goes to the bin whose half-open range holds
      its distance. */
  method DistBinSplit<T>(data: seq<T>, rd: seq<real>) returns (bins: seq<((int, int), seq<T>)>)
    requires |data| == |rd|
    ensures |bins| == NUM_BINS
    ensures forall b :: 0 <= b < |bins| ==> bins[b] == Bin(data, rd, b)
  {
    bins := [];
    var dist := 0;
    while dist < MAX_DIST
      invariant dist == 20 * |bins| && |bins| <= NUM_BINS
      invariant forall b :: 0 <= b < |bins| ==> bins[b] == Bin(data, rd, b)
    {
      var distCut := BinMask(rd, dist);
      var key := (dist, dist + BIN_WIDTH);
      bins := bins + [(key, Compress(data, distCut))];
      dist := dist + BIN_WIDTH;
    }
  }

  /** The data of a bin are the elements whose distance the bin holds, all of
      them, in their original order. */
  lemma BinContents<T>(data: seq<T>, rd: seq<real>, b: nat)
    requires |data| == |rd|
    ensures var ix, bin := TrueIndices(BinMask(rd, 20 * b)), Bin(data, rd, b).1;
      && |bin| == |ix|
      && (forall j :: 0 <= j < |ix| ==> ix[j] < |data| && bin[j] == data[ix[j]] && InBin(rd[ix[j]], 20 * b))
      && (forall j, k :: 0 <= j < k < |ix| ==> ix[j] < ix[k])
      && (forall i :: 0 <= i < |rd| && InBin(rd[i], 20 * b) ==> i in ix)
  {
    var mask := BinMask(rd, 20 * b);
    TrueIndicesSpec(mask);
    forall j | 0 <= j < |TrueIndices(mask)| ensures Compress(data, mask)[j] == data[TrueIndices(mask)[j]] {
      CompressAt(data, mask, j);
    }
  }

  /** A distance lies in one of the bins exactly when it is in [0, 140), and
      never in two of them. */
  lemma CoveredRange(x: real)
    ensures (exists b: nat :: b < NUM_BINS && InBin(x, 20 * b)) <==> 0.0 <= x < MAX_DIST as real
    ensures forall b: nat, c: nat :: InBin(x, 20 * b) && InBin(x, 20 * c) ==> b == c
  {
    if 0.0 <= x < MAX_DIST as real {
      var b: nat := (x / BIN_WIDTH as real).Floor;
      assert InBin(x, 20 * b);
    }
  }

  /** The number of the first `nb` bins that hold `x`. */
  ghost function BinsHolding(x: real, nb: nat): nat
  {
    if nb == 0 then 0 else BinsHolding(x, nb - 1) + (if InBin(x, 20 * (nb - 1)) then 1 else 0)
  }

  /** The first `nb` bins hold `x` once if it lies in [0, 20 nb), otherwise never. */
  lemma {:induction false} BinsHoldingCount(x: real, nb: nat)
    ensures BinsHolding(x, nb) == if 0.0 <= x < (20 * nb) as real then 1 else 0
  {
    if nb > 0 {
      BinsHoldingCount(x, nb - 1);
    }
  }

  /** The total size of the first `nb` bins. */
  ghost function BinSizes(rd: seq<real>, nb: nat): nat
  {
    if nb == 0 then 0 else BinSizes(rd, nb - 1) + |TrueIndices(BinMask(rd, 20 * (nb - 1)))|
  }

  /** The last distance dropped, the last bin test dropped. */
  lemma BinMaskPrefix(rd: seq<real>, lo: int)
    requires |rd| > 0
    ensures BinMask(rd, lo)[..|rd| - 1] == BinMask(rd[..|rd| - 1], lo)
  {
  }

  /** The total size of the first `nb` bins grows, with the last distance, by
      the number of those bins holding it. */
  lemma {:induction false} BinSizesLast(rd: seq<real>, nb: nat)
    requires |rd| > 0
    ensures BinSizes(rd, nb) == BinSizes(rd[..|rd| - 1], nb) + BinsHolding(rd[|rd| - 1], nb)
    decreases nb
  {
    if nb > 0 {
      BinSizesLast(rd, nb - 1);
      var lo := 20 * (nb - 1);
      BinMaskPrefix(rd, lo);
      assert |TrueIndices(BinMask(rd, lo))|
        == |TrueIndices(BinMask(rd[..|rd| - 1], lo))| + (if InBin(rd[|rd| - 1], lo) then 1 else 0);
    }
  }

  /** No distances, nothing in any bin. */
  lemma {:induction false} BinSizesEmpty(nb: nat)
    ensures BinSizes([], nb) == 0
  {
    if nb > 0 {
      BinSizesEmpty(nb - 1);
      assert BinMask([], 20 * (nb - 1)) == [];
    }
  }

  /** Entry `i` tells whether distance `i` lies in [0, 140). */
  function InRangeMask(rd: seq<real>): (m: seq<bool>)
    ensures |m| == |rd|
    ensures forall i :: 0 <= i < |rd| ==> (m[i] <==> 0.0 <= rd[i] < MAX_DIST as real)
  {
    seq(|rd|, i requires 0 <= i < |rd| => 0.0 <= rd[i] < MAX_DIST as real)
  }

  /** Together the bins hold exactly the elements whose distance is in [0, 140):
      each such element once, and no other. */
  lemma {:induction false} BinSizesTotal(rd: seq<real>)
    ensures BinSizes(rd, NUM_BINS) == |TrueIndices(InRangeMask(rd))| <= |rd|
    decreases |rd|
  {
    if |rd| == 0 {
      BinSizesEmpty(NUM_BINS);
    } else {
      var n := |rd| - 1;
      BinSizesTotal(rd[..n]);
      BinSizesLast(rd, NUM_BINS);
      BinsHoldingCount(rd[n], NUM_BINS);
      assert InRangeMask(rd)[..n] == InRangeMask(rd[..n]);
      assert |TrueIndices(InRangeMask(rd))|
        == |TrueIndices(InRangeMask(rd[..n]))| + (if 0.0 <= rd[n] < MAX_DIST as real then 1 else 0);
    }
  }

  /** The total size of the first `n` returned bins. */
  ghost function TotalSize<T>(bins: seq<((int, int), seq<T>)>, n: nat): nat
    requires n <= |bins|
  {
    if n == 0 then 0 else TotalSize(bins, n - 1) + |bins[n - 1].1|
  }

  /** The sizes of the first `n` returned bins add up to the first `n` bin sizes. */
  lemma {:induction false} TotalSizeIsBinSizes<T>(data: seq<T>, rd: seq<real>, bins: seq<((int, int), seq<T>)>, n: nat)
    requires |data| == |rd| && n <= |bins|
    requires forall b :: 0 <= b < |bins| ==> bins[b] == Bin(data, rd, b)
    ensures TotalSize(bins, n) == BinSizes(rd, n)
  {
    if n > 0 {
      TotalSizeIsBinSizes(data, rd, bins, n - 1);
    }
  }

  /** The sizes of the bins the split returns add up to the number of elements
      whose distance is in [0, 140), never more than the input holds. */
  lemma SplitSizes<T>(data: seq<T>, rd: seq<real>, bins: seq<((int, int), seq<T>)>)
    requires |data| == |rd| && |bins| == NUM_BINS
    requires forall b :: 0 <= b < |bins| ==> bins[b] == Bin(data, rd, b)
    ensures TotalSize(bins, NUM_BINS) == |TrueIndices(InRangeMask(rd))| <= |data|
  {
    BinSizesTotal(rd);
    TotalSizeIsBinSizes(data, rd, bins, NUM_BINS);
  }
}
