/** Boolean-mask selection (`data[mask]` on arrays): keep the elements whose
    mask entry is true, in their original order. */
module Masks {

  /** The positions whose mask entry is true, in increasing order (see TrueIndicesSpec). */
  function TrueIndices(mask: seq<bool>): (ix: seq<nat>)
    ensures |ix| <= |mask|
    decreases |mask|
  {
    if |mask| == 0 then []
    else
      var n := |mask| - 1;
      TrueIndices(mask[..n]) + (if mask[n] then [n] else [])
  }

  /** The true positions are exactly the positions whose entry is true, strictly increasing. */
  lemma {:induction false} TrueIndicesSpec(mask: seq<bool>)
    ensures forall j :: 0 <= j < |TrueIndices(mask)| ==> TrueIndices(mask)[j] < |mask| && mask[TrueIndices(mask)[j]]
    ensures forall j, k :: 0 <= j < k < |TrueIndices(mask)| ==> TrueIndices(mask)[j] < TrueIndices(mask)[k]
    ensures forall i :: 0 <= i < |mask| && mask[i] ==> i in TrueIndices(mask)
    decreases |mask|
  {
    if |mask| > 0 {
      var n := |mask| - 1;
      TrueIndicesSpec(mask[..n]);
    }
  }

  /** The number of true positions is the number of positions whose entry is true. */
  lemma {:induction false} TrueIndicesCount(mask: seq<bool>)
    ensures |TrueIndices(mask)| == |set i | 0 <= i < |mask| && mask[i]|
    decreases |mask|
  {
    if |mask| > 0 {
      var n := |mask| - 1;
      TrueIndicesCount(mask[..n]);
      var below := set i | 0 <= i < n && mask[..n][i];
      if mask[n] {
        assert (set i | 0 <= i < |mask| && mask[i]) == below + {n};
      } else {
        assert (set i | 0 <= i < |mask| && mask[i]) == below;
      }
    }
  }

  /** `data[mask]`: the elements at the true positions, in order (see CompressAt). */
  function Compress<T>(data: seq<T>, mask: seq<bool>): (r: seq<T>)
    requires |data| == |mask|
    ensures |r| == |TrueIndices(mask)|
    decreases |mask|
  {
    if |mask| == 0 then []
    else
      var n := |mask| - 1;
      Compress(data[..n], mask[..n]) + (if mask[n] then [data[n]] else [])
  }

  /** The j-th selected element is the input element at the j-th true position. */
  lemma {:induction false} CompressAt<T>(data: seq<T>, mask: seq<bool>, j: nat)
    requires |data| == |mask| && j < |Compress(data, mask)|
    ensures TrueIndices(mask)[j] < |data|
    ensures Compress(data, mask)[j] == data[TrueIndices(mask)[j]]
    decreases |mask|
  {
    TrueIndicesSpec(mask);
    var n := |mask| - 1;
    if j < |Compress(data[..n], mask[..n])| {
      CompressAt(data[..n], mask[..n], j);
    }
  }

  /** Element-wise conjunction of two masks (`a & b`). */
  function And(a: seq<bool>, b: seq<bool>): (c: seq<bool>)
    requires |a| == |b|
    ensures |c| == |a|
    ensures forall i :: 0 <= i < |c| ==> (c[i] <==> a[i] && b[i])
  {
    seq(|a|, i requires 0 <= i < |a| => a[i] && b[i])
  }



  /** A mask false at exactly one position has one true position fewer than its length. */
  lemma {:induction false} TrueIndicesAllButOne(mask: seq<bool>, j: nat)
    requires j < |mask| && !mask[j]
    requires forall i :: 0 <= i < |mask| && i != j ==> mask[i]
    ensures |TrueIndices(mask)| == |mask| - 1
    decreases |mask|
  {
    var n := |mask| - 1;
    if j == n {
      TrueIndicesAllTrue(mask[..n]);
    } else {
      TrueIndicesAllButOne(mask[..n], j);
    }
  }

  /** A mask true everywhere selects every position. */
  lemma {:induction false} TrueIndicesAllTrue(mask: seq<bool>)
    requires forall i :: 0 <= i < |mask| ==> mask[i]
    ensures |TrueIndices(mask)| == |mask|
    decreases |mask|
  {
    if |mask| > 0 {
      TrueIndicesAllTrue(mask[..|mask| - 1]);
    }
  }

  /** Two masks that are never true at the same position select at most the whole input together. */
  lemma {:induction false} DisjointMasksCount(a: seq<bool>, b: seq<bool>)
    requires |a| == |b|
    requires forall i :: 0 <= i < |a| ==> !(a[i] && b[i])
    ensures |TrueIndices(a)| + |TrueIndices(b)| <= |a|
    decreases |a|
  {
    if |a| > 0 {
      var n := |a| - 1;
      DisjointMasksCount(a[..n], b[..n]);
      assert |TrueIndices(a)| == |TrueIndices(a[..n])| + (if a[n] then 1 else 0);
      assert |TrueIndices(b)| == |TrueIndices(b[..n])| + (if b[n] then 1 else 0);
    }
  }

  /** Appending one element and one mask entry keeps the element exactly when the entry is true. */
  lemma CompressSnoc<T>(data: seq<T>, mask: seq<bool>, x: T, b: bool)
    requires |data| == |mask|
    ensures Compress(data + [x], mask + [b]) == Compress(data, mask) + (if b then [x] else [])
  {
    assert (data + [x])[..|data|] == data;
    assert (mask + [b])[..|mask|] == mask;
  }

  /** A last position whose mask entry is false selects nothing. */
  lemma CompressDropLast<T>(data: seq<T>, mask: seq<bool>)
    requires |data| == |mask| > 0 && !mask[|mask| - 1]
    ensures Compress(data, mask) == Compress(data[..|mask| - 1], mask[..|mask| - 1])
  {
    var n := |mask| - 1;
    assert Compress(data, mask) == Compress(data[..n], mask[..n]) + [];
  }

  /** The composition step when the last position is dropped by `a`. */
  lemma CompressComposeSkip<T>(data: seq<T>, a: seq<bool>, b: seq<bool>)
    requires |data| == |a| == |b| > 0 && !a[|a| - 1]
    requires var n := |a| - 1;
      Compress(Compress(data[..n], a[..n]), Compress(b[..n], a[..n])) == Compress(data[..n], And(a[..n], b[..n]))
    ensures Compress(Compress(data, a), Compress(b, a)) == Compress(data, And(a, b))
  {
    var n := |a| - 1;
    var ab := And(a, b);
    assert ab[..n] == And(a[..n], b[..n]);
    CompressDropLast(data, a);
    CompressDropLast(b, a);
    CompressDropLast(data, ab);
  }

  /** The composition step when the last position is kept by `a`. */
  lemma CompressComposeKeep<T>(data: seq<T>, a: seq<bool>, b: seq<bool>)
    requires |data| == |a| == |b| > 0 && a[|a| - 1]
    requires var n := |a| - 1;
      Compress(Compress(data[..n], a[..n]), Compress(b[..n], a[..n])) == Compress(data[..n], And(a[..n], b[..n]))
    ensures Compress(Compress(data, a), Compress(b, a)) == Compress(data, And(a, b))
  {
    var n := |a| - 1;
    var d0, a0, b0 := data[..n], a[..n], b[..n];
    assert And(a, b)[..n] == And(a0, b0);
    var da, ba := Compress(d0, a0), Compress(b0, a0);
    assert Compress(data, a) == da + [data[n]];
    assert Compress(b, a) == ba + [b[n]];
    CompressSnoc(da, ba, data[n], b[n]);
    if b[n] {
      assert Compress(data, And(a, b)) == Compress(d0, And(a0, b0)) + [data[n]];
    } else {
      assert Compress(data, And(a, b)) == Compress(d0, And(a0, b0)) + [] == Compress(d0, And(a0, b0));
      assert Compress(da, ba) + [] == Compress(da, ba);
    }
  }

  /** Selecting with `a` and then, among the survivors, with `b[a]` is selecting with `a & b`. */
  lemma {:induction false} CompressCompose<T>(data: seq<T>, a: seq<bool>, b: seq<bool>)
    requires |data| == |a| == |b|
    ensures Compress(Compress(data, a), Compress(b, a)) == Compress(data, And(a, b))
    decreases |a|
  {
    if |a| > 0 {
      var n := |a| - 1;
      CompressCompose(data[..n], a[..n], b[..n]);
      if a[n] {
        CompressComposeKeep(data, a, b);
      } else {
        CompressComposeSkip(data, a, b);
      }
    }
  }
}
