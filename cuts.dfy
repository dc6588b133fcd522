/** Event cuts and DOM cuts: threshold tests on frame variables, and the split
    of the surviving per-DOM data into the IceCube and DeepCore regions. */
module Cuts {
  import opened Frames
  import opened Masks
  import opened Detector

  /** A cut: keep values strictly below, or strictly above, a threshold. */
  datatype Cut = LessThan(threshold: real) | GreaterThan(threshold: real)

  /** Whether a value passes a cut; both comparisons are strict. */
  predicate Passes(c: Cut, x: real)
    ensures Passes(c, x) ==> x != c.threshold
  {
    match c
    case LessThan(t) => x < t
    case GreaterThan(t) => x > t
  }

  /** The frame holds a boxed double under `key`. */
  predicate HasDouble(entries: map<string, Value>, key: string)
  {
    key in entries && entries[key].Double?
  }

  /** The first `n` event cuts read a boxed double and pass. */
  ghost predicate PassesFirst(entries: map<string, Value>, cuts: seq<(string, Cut)>, n: nat)
    requires n <= |cuts|
  {
    forall i :: 0 <= i < n ==> HasDouble(entries, cuts[i].0) && Passes(cuts[i].1, entries[cuts[i].0].x)
  }

  /** Event cuts, tried in order: the frame is kept when every cut passes; the
      first failing cut rejects it without looking further; a cut whose variable
      is not a boxed double in the frame fails the lookup. The frame is only read. */
  method MakeEventCuts(f: Frame, cuts: seq<(string, Cut)>) returns (r: Result<bool>)
    ensures r == Ok(true) <==> PassesFirst(f.entries, cuts, |cuts|)
    ensures r == Ok(false) <==>
      exists i :: 0 <= i < |cuts| && PassesFirst(f.entries, cuts, i)
        && HasDouble(f.entries, cuts[i].0) && !Passes(cuts[i].1, f.entries[cuts[i].0].x)
    ensures r.Err? ==>
      exists i :: 0 <= i < |cuts| && PassesFirst(f.entries, cuts, i)
        && !HasDouble(f.entries, cuts[i].0) && r.key == cuts[i].0
  {
    var i := 0;
    while i < |cuts|
      invariant 0 <= i <= |cuts|
      invariant PassesFirst(f.entries, cuts, i)
    {
      var (key, cut) := cuts[i];
      if !(key in f.entries && f.entries[key].Double?) {
        return Err(key);
      }
      var data := f.entries[key].x;
      var passCut := match cut
        case LessThan(t) => data < t
        case GreaterThan(t) => data > t;
      if !passCut {
        assert !PassesFirst(f.entries, cuts, |cuts|);
        return Ok(false);
      }
      i := i + 1;
    }
    return Ok(true);
  }

  /** The frame holds a vector of `n` doubles under `key`. */
  predicate IsVector(entries: map<string, Value>, key: string, n: nat)
  {
    key in entries && entries[key].VectorDouble? && |entries[key].xs| == n
  }

  /** Every DOM-cut variable is a vector of `n` doubles. */
  predicate CutsReadable(entries: map<string, Value>, cuts: seq<(string, Cut)>, n: nat)
  {
    forall j :: 0 <= j < |cuts| ==> IsVector(entries, cuts[j].0, n)
  }

  /** Whether DOM entry `i` passes every DOM cut. */
  ghost predicate DomPasses(entries: map<string, Value>, cuts: seq<(string, Cut)>, n: nat, i: nat)
    requires CutsReadable(entries, cuts, n) && i < n
  {
    forall j :: 0 <= j < |cuts| ==> Passes(cuts[j].1, entries[cuts[j].0].xs[i])
  }

  /** The DOM-cut mask: entry `i` is true when DOM entry `i` passes every cut. */
  ghost function PassMask(entries: map<string, Value>, cuts: seq<(string, Cut)>, n: nat): seq<bool>
    requires CutsReadable(entries, cuts, n)
  {
    seq(n, i requires 0 <= i < n => DomPasses(entries, cuts, n, i))
  }

  /** A mask that is true exactly at the DOM entries passing every cut is the pass mask. */
  lemma PassMaskUnique(entries: map<string, Value>, cuts: seq<(string, Cut)>, n: nat, mask: seq<bool>)
    requires CutsReadable(entries, cuts, n) && |mask| == n
    requires forall i :: 0 <= i < n ==>
      (mask[i] <==> forall j :: 0 <= j < |cuts| ==> Passes(cuts[j].1, entries[cuts[j].0].xs[i]))
    ensures mask == PassMask(entries, cuts, n)
  {
  }

  /** The mask of DOM entries passing all DOM cuts: it starts all true, one
      entry per DOM, and each cut is AND-ed into it element by element. */
  method CutMask(f: Frame, cuts: seq<(string, Cut)>, n: nat) returns (mask: seq<bool>)
    requires CutsReadable(f.entries, cuts, n)
    ensures |mask| == n
    ensures forall i :: 0 <= i < n ==>
      (mask[i] <==> forall j :: 0 <= j < |cuts| ==> Passes(cuts[j].1, f.entries[cuts[j].0].xs[i]))
  {
    mask := seq(n, _ => true);
    var c := 0;
    while c < |cuts|
      invariant 0 <= c <= |cuts| && |mask| == n
      invariant forall i :: 0 <= i < n ==>
        (mask[i] <==> forall j :: 0 <= j < c ==> Passes(cuts[j].1, f.entries[cuts[j].0].xs[i]))
    {
      var data := f.entries[cuts[c].0].xs;
      var cut := cuts[c].1;
      var passCutTemp := seq(n, i requires 0 <= i < n => match cut
        case LessThan(t) => data[i] < t
        case GreaterThan(t) => data[i] > t);
      mask := And(mask, passCutTemp);
      c := c + 1;
    }
  }

  /** Entry `i` is true when string number `strings[i]` is on `list` (`np.in1d`). */
  function StringMask(strings: seq<real>, list: seq<nat>): (m: seq<bool>)
    ensures |m| == |strings|
    ensures forall i :: 0 <= i < |m| ==> (m[i] <==> OnList(strings[i], list))
  {
    seq(|strings|, i requires 0 <= i < |strings| => OnList(strings[i], list))
  }

  /** Split per-DOM data into the entries on IceCube strings and those on
      DeepCore strings; entries on other strings are dropped. */
  function ICDCSplit(data: seq<real>, strings: seq<real>): (r: (seq<real>, seq<real>))
    requires |data| == |strings|
    ensures |r.0| + |r.1| <= |data|
    ensures |r.0| == |TrueIndices(StringMask(strings, IC_STRINGS))|
    ensures |r.1| == |TrueIndices(StringMask(strings, DC_STRINGS))|
  {
    var ic, dc := StringMask(strings, IC_STRINGS), StringMask(strings, DC_STRINGS);
    ListsDisjoint();
    DisjointMasksCount(ic, dc);
    (Compress(data, ic), Compress(data, dc))
  }

  /** Each output of the split is the input at the increasing positions whose
      string is on that region's list, and every such position is used. */
  lemma ICDCSplitSelects(data: seq<real>, strings: seq<real>, list: seq<nat>, out: seq<real>)
    requires |data| == |strings|
    requires list == IC_STRINGS || list == DC_STRINGS
    requires out == (if list == IC_STRINGS then ICDCSplit(data, strings).0 else ICDCSplit(data, strings).1)
    ensures var ix := TrueIndices(StringMask(strings, list));
      && |out| == |ix|
      && (forall j :: 0 <= j < |ix| ==> ix[j] < |data| && OnList(strings[ix[j]], list) && out[j] == data[ix[j]])
      && (forall j, k :: 0 <= j < k < |ix| ==> ix[j] < ix[k])
      && (forall i :: 0 <= i < |data| && OnList(strings[i], list) ==> i in ix)
  {
    var m := StringMask(strings, list);
    assert out == Compress(data, m);
    TrueIndicesSpec(m);
    forall j | 0 <= j < |out| ensures out[j] == data[TrueIndices(m)[j]] {
      CompressAt(data, m, j);
    }
  }

  /** Appending one string number appends its test to the mask. */
  lemma StringMaskSnoc(strings: seq<real>, x: real, list: seq<nat>)
    ensures StringMask(strings + [x], list) == StringMask(strings, list) + [OnList(x, list)]
  {
    var a, b := StringMask(strings + [x], list), StringMask(strings, list) + [OnList(x, list)];
    forall i | 0 <= i < |a| ensures a[i] == b[i] {
      if i < |strings| {
        assert (strings + [x])[i] == strings[i];
      }
    }
  }

  /** The string test commutes with selection. */
  lemma {:induction false} StringMaskCompress(strings: seq<real>, pass: seq<bool>, list: seq<nat>)
    requires |strings| == |pass|
    ensures StringMask(Compress(strings, pass), list) == Compress(StringMask(strings, list), pass)
    decreases |pass|
  {
    if |pass| > 0 {
      var n := |pass| - 1;
      var s0, p0 := strings[..n], pass[..n];
      var m := StringMask(strings, list);
      StringMaskCompress(s0, p0, list);
      assert m[..n] == StringMask(s0, list);
      assert Compress(m, pass) == Compress(StringMask(s0, list), p0) + (if pass[n] then [m[n]] else []);
      assert Compress(strings, pass) == Compress(s0, p0) + (if pass[n] then [strings[n]] else []);
      if pass[n] {
        StringMaskSnoc(Compress(s0, p0), strings[n], list);
      } else {
        assert Compress(s0, p0) + [] == Compress(s0, p0);
        assert Compress(StringMask(s0, list), p0) + [] == Compress(StringMask(s0, list), p0);
      }
    }
  }


  /** A DOM entry reaches the IceCube output exactly when it passes every DOM
      cut and its string is an IceCube string (and likewise for DeepCore),
      in the original order. */
  lemma DomCutSelection(data: seq<real>, strings: seq<real>, pass: seq<bool>)
    requires |data| == |strings| == |pass|
    ensures ICDCSplit(Compress(data, pass), Compress(strings, pass)).0
      == Compress(data, And(pass, StringMask(strings, IC_STRINGS)))
    ensures ICDCSplit(Compress(data, pass), Compress(strings, pass)).1
      == Compress(data, And(pass, StringMask(strings, DC_STRINGS)))
  {
    StringMaskCompress(strings, pass, IC_STRINGS);
    StringMaskCompress(strings, pass, DC_STRINGS);
    CompressCompose(data, pass, StringMask(strings, IC_STRINGS));
    CompressCompose(data, pass, StringMask(strings, DC_STRINGS));
  }

  /** The variable the DOM cuts leave uncut. */
  const TIME_RESIDUAL: string := "TimeResidual"

  /** The frame names written for the given DOM keys. */
  ghost function OutputKeys(domKeys: seq<string>): set<string>
    decreases |domKeys|
  {
    if |domKeys| == 0 then {}
    else
      var k := domKeys[|domKeys| - 1];
      OutputKeys(domKeys[..|domKeys| - 1]) + (if k != TIME_RESIDUAL then {k + "IC", k + "DC"} else {})
  }

  /** Every output name comes from a kept DOM key. */
  lemma {:induction false} OutputKeysFrom(domKeys: seq<string>, x: string)
    requires x in OutputKeys(domKeys)
    ensures exists k :: k in domKeys && k != TIME_RESIDUAL && (x == k + "IC" || x == k + "DC")
    decreases |domKeys|
  {
    var n := |domKeys| - 1;
    var k := domKeys[n];
    if x in OutputKeys(domKeys[..n]) {
      OutputKeysFrom(domKeys[..n], x);
      var k' :| k' in domKeys[..n] && k' != TIME_RESIDUAL && (x == k' + "IC" || x == k' + "DC");
      assert k' in domKeys;
    } else {
      assert k in domKeys;
    }
  }

  /** The frame entries that DOM key `k` produces. */
  ghost predicate WrittenFor(entries: map<string, Value>, k: string, data: seq<real>, pass: seq<bool>, passStrings: seq<real>)
    requires |data| == |pass| && |passStrings| == |TrueIndices(pass)|
  {
    var split := ICDCSplit(Compress(data, pass), passStrings);
    && k + "IC" in entries && entries[k + "IC"] == VectorDouble(split.0)
    && k + "DC" in entries && entries[k + "DC"] == VectorDouble(split.1)
  }

  /** What the DOM cuts need from the frame: the `String` vector, every cut
      variable and every kept DOM key as vectors of the same length, and no kept
      DOM key that is the output name of another. */
  predicate DomCutsReady(entries: map<string, Value>, cuts: seq<(string, Cut)>, domKeys: seq<string>)
  {
    && "String" in entries && entries["String"].VectorDouble?
    && CutsReadable(entries, cuts, |entries["String"].xs|)
    && (forall k :: k in domKeys && k != TIME_RESIDUAL ==> IsVector(entries, k, |entries["String"].xs|))
    && (forall k1, k2 :: k1 in domKeys && k2 in domKeys && k1 != TIME_RESIDUAL && k2 != TIME_RESIDUAL ==>
          k2 != k1 + "IC" && k2 != k1 + "DC")
  }

  /** Distinct output names for distinct keys. */
  lemma OutputNamesDistinct(a: string, b: string)
    ensures a + "IC" == b + "IC" ==> a == b
    ensures a + "DC" == b + "DC" ==> a == b
    ensures a + "IC" != b + "DC"
  {
    if a + "IC" == b + "IC" {
      assert a == (a + "IC")[..|a|];
    }
    if a + "DC" == b + "DC" {
      assert a == (a + "DC")[..|a|];
    }
  }

  /** The frame after the first `i` DOM keys have been written. */
  ghost predicate DomCutsDone(e0: map<string, Value>, entries: map<string, Value>, domKeys: seq<string>, i: nat,
                              pass: seq<bool>, passStrings: seq<real>)
    requires i <= |domKeys| && |passStrings| == |TrueIndices(pass)|
  {
    && entries.Keys == e0.Keys + OutputKeys(domKeys[..i])
    && (forall k :: k in e0 && k !in OutputKeys(domKeys[..i]) ==> entries[k] == e0[k])
    && (forall k :: k in domKeys[..i] && k != TIME_RESIDUAL ==>
          IsVector(e0, k, |pass|) && WrittenFor(entries, k, e0[k].xs, pass, passStrings))
  }

  /** Writing the outputs of one key leaves the outputs of every other key as they were. */
  lemma WrittenForKept(before: map<string, Value>, key: string, icData: seq<real>, dcData: seq<real>,
                       k: string, data: seq<real>, pass: seq<bool>, passStrings: seq<real>)
    requires |data| == |pass| && |passStrings| == |TrueIndices(pass)| && k != key
    requires WrittenFor(before, k, data, pass, passStrings)
    ensures WrittenFor(before[key + "IC" := VectorDouble(icData)][key + "DC" := VectorDouble(dcData)],
                       k, data, pass, passStrings)
  {
    OutputNamesDistinct(k, key);
    OutputNamesDistinct(key, k);
  }

  /** Writing the outputs of DOM key `i` extends the written prefix by one key. */
  lemma DomCutsWrite(e0: map<string, Value>, before: map<string, Value>, cuts: seq<(string, Cut)>,
                     domKeys: seq<string>, i: nat, pass: seq<bool>, passStrings: seq<real>)
    requires DomCutsReady(e0, cuts, domKeys) && |pass| == |e0["String"].xs|
    requires i < |domKeys| && domKeys[i] != TIME_RESIDUAL && |passStrings| == |TrueIndices(pass)|
    requires DomCutsDone(e0, before, domKeys, i, pass, passStrings)
    ensures var key := domKeys[i];
      && IsVector(e0, key, |pass|) && key in before && before[key] == e0[key]
      && var split := ICDCSplit(Compress(e0[key].xs, pass), passStrings);
         DomCutsDone(e0, before[key + "IC" := VectorDouble(split.0)][key + "DC" := VectorDouble(split.1)],
                     domKeys, i + 1, pass, passStrings)
  {
    var key := domKeys[i];
    assert key in domKeys;
    assert domKeys[..i + 1][..i] == domKeys[..i];
    assert OutputKeys(domKeys[..i + 1]) == OutputKeys(domKeys[..i]) + {key + "IC", key + "DC"};
    if key in OutputKeys(domKeys[..i]) {
      OutputKeysFrom(domKeys[..i], key);
      assert false;
    }
    var split := ICDCSplit(Compress(e0[key].xs, pass), passStrings);
    OutputNamesDistinct(key, key);
    WrittenForPrefix(e0, before, domKeys, i, pass, passStrings, split.0, split.1);
  }

  /** After writing the outputs of DOM key `i`, every key of the prefix up to
      and including it has its outputs written. */
  lemma WrittenForPrefix(e0: map<string, Value>, before: map<string, Value>, domKeys: seq<string>, i: nat,
                         pass: seq<bool>, passStrings: seq<real>, icData: seq<real>, dcData: seq<real>)
    requires i < |domKeys| && domKeys[i] != TIME_RESIDUAL && |passStrings| == |TrueIndices(pass)|
    requires IsVector(e0, domKeys[i], |pass|)
    requires (icData, dcData) == ICDCSplit(Compress(e0[domKeys[i]].xs, pass), passStrings)
    requires forall k :: k in domKeys[..i] && k != TIME_RESIDUAL ==>
      IsVector(e0, k, |pass|) && WrittenFor(before, k, e0[k].xs, pass, passStrings)
    ensures var after := before[domKeys[i] + "IC" := VectorDouble(icData)][domKeys[i] + "DC" := VectorDouble(dcData)];
      forall k :: k in domKeys[..i + 1] && k != TIME_RESIDUAL ==>
        IsVector(e0, k, |pass|) && WrittenFor(after, k, e0[k].xs, pass, passStrings)
  {
    var key := domKeys[i];
    var after := before[key + "IC" := VectorDouble(icData)][key + "DC" := VectorDouble(dcData)];
    OutputNamesDistinct(key, key);
    forall k | k in domKeys[..i + 1] && k != TIME_RESIDUAL
      ensures IsVector(e0, k, |pass|) && WrittenFor(after, k, e0[k].xs, pass, passStrings)
    {
      if k == key {
        assert WrittenFor(after, key, e0[key].xs, pass, passStrings);
      } else {
        var j :| 0 <= j < i + 1 && domKeys[..i + 1][j] == k;
        assert j < i && domKeys[..i][j] == k;
        assert k in domKeys[..i];
        WrittenForKept(before, key, icData, dcData, k, e0[k].xs, pass, passStrings);
      }
    }
  }

  /** Skipping the time residual extends the written prefix without writing. */
  lemma DomCutsSkip(e0: map<string, Value>, before: map<string, Value>, domKeys: seq<string>, i: nat,
                    pass: seq<bool>, passStrings: seq<real>)
    requires i < |domKeys| && domKeys[i] == TIME_RESIDUAL && |passStrings| == |TrueIndices(pass)|
    requires DomCutsDone(e0, before, domKeys, i, pass, passStrings)
    ensures DomCutsDone(e0, before, domKeys, i + 1, pass, passStrings)
  {
    assert domKeys[..i + 1] == domKeys[..i] + [TIME_RESIDUAL];
    forall k | k in domKeys[..i + 1] && k != TIME_RESIDUAL
      ensures k in domKeys[..i]
    {
    }
  }

  /** Once every DOM key is written, the frame is the one the DOM cuts promise. */
  lemma DomCutsFinish(e0: map<string, Value>, entries: map<string, Value>, domKeys: seq<string>,
                      pass: seq<bool>, passStrings: seq<real>)
    requires |passStrings| == |TrueIndices(pass)|
    requires DomCutsDone(e0, entries, domKeys, |domKeys|, pass, passStrings)
    ensures entries.Keys == e0.Keys + OutputKeys(domKeys)
    ensures forall k :: k in e0 && k !in OutputKeys(domKeys) ==> entries[k] == e0[k]
    ensures forall k :: k in domKeys && k != TIME_RESIDUAL ==>
      IsVector(e0, k, |pass|) && WrittenFor(entries, k, e0[k].xs, pass, passStrings)
  {
    assert domKeys[..|domKeys|] == domKeys;
  }

  /** Cut the data of one DOM key, split it into IceCube and DeepCore entries and
      write them under `key + "IC"` and `key + "DC"`. */
  method WriteSplit(f: Frame, key: string, passCut: seq<bool>, passCutString: seq<real>)
    requires IsVector(f.entries, key, |passCut|) && |passCutString| == |TrueIndices(passCut)|
    modifies f
    ensures var split := ICDCSplit(Compress(old(f.entries)[key].xs, passCut), passCutString);
      f.entries == old(f.entries)[key + "IC" := VectorDouble(split.0)][key + "DC" := VectorDouble(split.1)]
  {
    var data := Compress(f.entries[key].xs, passCut);
    var (dataIC, dataDC) := ICDCSplit(data, passCutString);
    f.entries := f.entries[key + "IC" := VectorDouble(dataIC)][key + "DC" := VectorDouble(dataDC)];
  }

  /** Write the cut, split outputs of every DOM key except the time residual. */
  method CutDomKeys(f: Frame, cuts: seq<(string, Cut)>, domKeys: seq<string>, passCut: seq<bool>, passCutString: seq<real>)
    requires DomCutsReady(f.entries, cuts, domKeys) && |passCut| == |f.entries["String"].xs|
    requires |passCutString| == |TrueIndices(passCut)|
    modifies f
    ensures DomCutsDone(old(f.entries), f.entries, domKeys, |domKeys|, passCut, passCutString)
  {
    ghost var e0 := f.entries;
    var i := 0;
    while i < |domKeys|
      invariant 0 <= i <= |domKeys|
      invariant DomCutsDone(e0, f.entries, domKeys, i, passCut, passCutString)
    {
      var key := domKeys[i];
      if key == TIME_RESIDUAL {
        DomCutsSkip(e0, f.entries, domKeys, i, passCut, passCutString);
      } else {
        DomCutsWrite(e0, f.entries, cuts, domKeys, i, passCut, passCutString);
        WriteSplit(f, key, passCut, passCutString);
      }
      i := i + 1;
    }
  }

  /** DOM cuts: build the pass mask, then for every DOM key except the time
      residual write the surviving IceCube entries under `key + "IC"` and the
      surviving DeepCore entries under `key + "DC"`. */
  method MakeDomCuts(f: Frame, cuts: seq<(string, Cut)>, domKeys: seq<string>)
    requires DomCutsReady(f.entries, cuts, domKeys)
    modifies f
    ensures f.entries.Keys == old(f.entries).Keys + OutputKeys(domKeys)
    ensures forall k :: k in old(f.entries) && k !in OutputKeys(domKeys) ==> f.entries[k] == old(f.entries)[k]
    ensures var strings := old(f.entries)["String"].xs;
      var pass := PassMask(old(f.entries), cuts, |strings|);
      forall k :: k in domKeys && k != TIME_RESIDUAL ==>
        WrittenFor(f.entries, k, old(f.entries)[k].xs, pass, Compress(strings, pass))
  {
    ghost var e0 := f.entries;
    var n := |f.entries["String"].xs|;
    var passCut := CutMask(f, cuts, n);
    PassMaskUnique(e0, cuts, n, passCut);
    var passCutString := Compress(f.entries["String"].xs, passCut);
    CutDomKeys(f, cuts, domKeys, passCut, passCutString);
    DomCutsFinish(e0, f.entries, domKeys, passCut, passCutString);
  }
}
