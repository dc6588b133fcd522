/** The hit counter that also looks at the local-coincidence bit of each hit
    DOM's first raw launch. Its IceCube region includes string 36. */
module Miscellaneous {
  import opened Frames
  import opened Detector
  import opened Counting
  import General

  /** A hit on a DeepCore string. */
  predicate OnDC(d: OMKey)
  {
    d.str in DC_STRINGS
  }

  /** A hit neither on DeepCore nor in the IceCube region (with string 36). */
  predicate OffICRegion(d: OMKey)
  {
    d.str !in DC_STRINGS && d.str !in IC_STRINGS_WITH_36
  }

  /** A hit off the DeepCore strings. */
  predicate OffDC(d: OMKey)
  {
    d.str !in DC_STRINGS
  }

  /** A hit in the IceCube analysis region (with string 36). */
  predicate ICAnalysisHit36(d: OMKey)
  {
    d.str in IC_STRINGS_WITH_36 && d.om >= IC_MIN_OM
  }

  /** Every DOM counts for a test that always passes. */
  predicate AnyDom(d: OMKey)
  {
    true
  }

  /** The first launch of the DOM can be read. */
  predicate HasLaunch(raw: map<OMKey, seq<Launch>>, d: OMKey)
  {
    d in raw && |raw[d]| > 0
  }

  /** The hit DOMs whose first launch has the local-coincidence bit set. */
  ghost function WithLC(keys: set<OMKey>, raw: map<OMKey, seq<Launch>>): set<OMKey>
  {
    set d | d in keys && HasLaunch(raw, d) && raw[d][0].lcBit
  }

  /** The six counters of the local-coincidence hit counter. */
  datatype LCCounts = LCCounts(icNHits: nat, nICLC: nat, icLCCut: nat, nDCLC: nat, icAnalysisHits: nat, dcAnalysisHits: nat)

  /** What the counters hold once every hit DOM in `keys` has been visited. */
  ghost function Expected(keys: set<OMKey>, raw: map<OMKey, seq<Launch>>): LCCounts
  {
    var lc := WithLC(keys, raw);
    LCCounts(|Where(keys, OffICRegion)|, |Where(lc, OffDC)|, |Where(lc, OffICRegion)|,
             |Where(lc, OnDC)|, |Where(keys, ICAnalysisHit36)|, |Where(keys, General.DCAnalysisHit)|)
  }

  /** Visiting one more DOM adds it to the local-coincidence set exactly when its bit is set. */
  lemma WithLCStep(done: set<OMKey>, raw: map<OMKey, seq<Launch>>, x: OMKey)
    requires x !in done && HasLaunch(raw, x)
    ensures x !in WithLC(done, raw)
    ensures WithLC(done + {x}, raw) == WithLC(done, raw) + (if raw[x][0].lcBit then {x} else {})
  {
  }

  /** Visiting one more DOM advances each count over all hit DOMs by whether that DOM counts. */
  lemma HitCountsStep(done: set<OMKey>, x: OMKey)
    requires x !in done
    ensures |Where(done + {x}, OffICRegion)| == |Where(done, OffICRegion)| + (if OffICRegion(x) then 1 else 0)
    ensures |Where(done + {x}, ICAnalysisHit36)| == |Where(done, ICAnalysisHit36)| + (if ICAnalysisHit36(x) then 1 else 0)
    ensures |Where(done + {x}, General.DCAnalysisHit)| == |Where(done, General.DCAnalysisHit)| + (if General.DCAnalysisHit(x) then 1 else 0)
  {
    WhereStep(done, OffICRegion, x);
    WhereStep(done, ICAnalysisHit36, x);
    WhereStep(done, General.DCAnalysisHit, x);
  }

  /** Visiting one more readable DOM advances each count over the
      local-coincidence DOMs by whether that DOM counts and has its bit set. */
  lemma LCCountsStep(done: set<OMKey>, raw: map<OMKey, seq<Launch>>, x: OMKey)
    requires x !in done && HasLaunch(raw, x)
    ensures var lc, lc', bit := WithLC(done, raw), WithLC(done + {x}, raw), raw[x][0].lcBit;
      && |Where(lc', OffDC)| == |Where(lc, OffDC)| + (if OffDC(x) && bit then 1 else 0)
      && |Where(lc', OffICRegion)| == |Where(lc, OffICRegion)| + (if OffICRegion(x) && bit then 1 else 0)
      && |Where(lc', OnDC)| == |Where(lc, OnDC)| + (if OnDC(x) && bit then 1 else 0)
  {
    WithLCStep(done, raw, x);
    var lc := WithLC(done, raw);
    if raw[x][0].lcBit {
      WhereStep(lc, OffDC, x);
      WhereStep(lc, OffICRegion, x);
      WhereStep(lc, OnDC, x);
    } else {
      assert WithLC(done + {x}, raw) == lc;
    }
  }

  /** Visiting one more readable DOM advances every counter by what that DOM contributes. */
  lemma ExpectedStep(done: set<OMKey>, raw: map<OMKey, seq<Launch>>, x: OMKey)
    requires x !in done && HasLaunch(raw, x)
    ensures var e, e' := Expected(done, raw), Expected(done + {x}, raw);
      var lc := raw[x][0].lcBit;
      && e'.icNHits == e.icNHits + (if OffICRegion(x) then 1 else 0)
      && e'.nICLC == e.nICLC + (if OffDC(x) && lc then 1 else 0)
      && e'.icLCCut == e.icLCCut + (if OffICRegion(x) && lc then 1 else 0)
      && e'.nDCLC == e.nDCLC + (if OnDC(x) && lc then 1 else 0)
      && e'.icAnalysisHits == e.icAnalysisHits + (if ICAnalysisHit36(x) then 1 else 0)
      && e'.dcAnalysisHits == e.dcAnalysisHits + (if General.DCAnalysisHit(x) then 1 else 0)
  {
    HitCountsStep(done, x);
    LCCountsStep(done, raw, x);
  }

  /** How the classes of a DOM follow from whether its string is a DeepCore string. */
  lemma Classes(x: OMKey)
    ensures OnDC(x) ==> !OffDC(x) && !OffICRegion(x) && !ICAnalysisHit36(x)
    ensures OnDC(x) ==> (General.DCAnalysisHit(x) <==> x.om >= DC_MIN_OM)
    ensures !OnDC(x) ==> OffDC(x) && !General.DCAnalysisHit(x)
  {
    ListsDisjoint();
  }

  /** Count the hit DOMs of each class; fails when some hit DOM has no raw launch to read. */
  method TallyLCHits(keys: set<OMKey>, raw: map<OMKey, seq<Launch>>) returns (r: Option<LCCounts>)
    ensures r.None? <==> exists d :: d in keys && !HasLaunch(raw, d)
    ensures r.Some? ==> r.value == Expected(keys, raw)
  {
    var icNumHits, icLCCounter, icLCCutCounter, dcLCCounter, icAnalysisHits, dcAnalysisHits := 0, 0, 0, 0, 0, 0;
    var todo := keys;
    ghost var done: set<OMKey> := {};
    while todo != {}
      invariant todo <= keys && done == keys - todo
      invariant forall d :: d in done ==> HasLaunch(raw, d)
      invariant LCCounts(icNumHits, icLCCounter, icLCCutCounter, dcLCCounter, icAnalysisHits, dcAnalysisHits)
        == Expected(done, raw)
      decreases todo
    {
      var dom :| dom in todo;
      if !(dom in raw && |raw[dom]| > 0) {
        return None;
      }
      ExpectedStep(done, raw, dom);
      Classes(dom);
      if dom.str in DC_STRINGS {
        if dom.om >= 11 {
          dcAnalysisHits := dcAnalysisHits + 1;
        }
        if raw[dom][0].lcBit {
          dcLCCounter := dcLCCounter + 1;
        }
      } else {
        if raw[dom][0].lcBit {
          icLCCounter := icLCCounter + 1;
        }
        if dom.str !in IC_STRINGS_WITH_36 {
          icNumHits := icNumHits + 1;
          if raw[dom][0].lcBit {
            icLCCutCounter := icLCCutCounter + 1;
          }
        } else if dom.str in IC_STRINGS_WITH_36 && dom.om >= 40 {
          icAnalysisHits := icAnalysisHits + 1;
        }
      }
      todo := todo - {dom};
      done := done + {dom};
    }
    assert done == keys;
    r := Some(LCCounts(icNumHits, icLCCounter, icLCCutCounter, dcLCCounter, icAnalysisHits, dcAnalysisHits));
  }

  /** Count the hits of the named pulse map against the raw data and store the
      six counters; when a hit DOM has no raw launch the frame is left as it was. */
  method CountLCHits(f: Frame, pulsesName: string) returns (ok: bool)
    requires pulsesName in f.entries && f.entries[pulsesName].PulseMap?
    requires "InIceRawData" in f.entries && f.entries["InIceRawData"].RawData?
    modifies f
    ensures var keys := old(f.entries)[pulsesName].pulses.Keys;
      var raw := old(f.entries)["InIceRawData"].launches;
      var e := Expected(keys, raw);
      && (ok <==> forall d :: d in keys ==> HasLaunch(raw, d))
      && (!ok ==> f.entries == old(f.entries))
      && (ok ==> f.entries == old(f.entries)
                   ["ICNHits" := Double(e.icNHits as real)]
                   ["NICLC" := Double(e.nICLC as real)]
                   ["ICLCCut" := Double(e.icLCCut as real)]
                   ["NDCLC" := Double(e.nDCLC as real)]
                   ["ICAnalysisHits" := Double(e.icAnalysisHits as real)]
                   ["DCAnalysisHits" := Double(e.dcAnalysisHits as real)])
  {
    var pulseSeries := f.entries[pulsesName].pulses;
    var rawData := f.entries["InIceRawData"].launches;
    var counts := TallyLCHits(pulseSeries.Keys, rawData);
    if counts.None? {
      return false;
    }
    var c := counts.value;
    f.entries := f.entries["ICNHits" := Double(c.icNHits as real)];
    f.entries := f.entries["NICLC" := Double(c.nICLC as real)];
    f.entries := f.entries["ICLCCut" := Double(c.icLCCut as real)];
    f.entries := f.entries["NDCLC" := Double(c.nDCLC as real)];
    f.entries := f.entries["ICAnalysisHits" := Double(c.icAnalysisHits as real)];
    f.entries := f.entries["DCAnalysisHits" := Double(c.dcAnalysisHits as real)];
    return true;
  }

  /** Restricting to fewer DOMs never raises a count. */
  lemma WhereSubset(a: set<OMKey>, b: set<OMKey>, test: OMKey -> bool)
    requires a <= b
    ensures |Where(a, test)| <= |Where(b, test)|
  {
    SubsetSize(Where(a, test), Where(b, test));
  }

  /** The local-coincidence noise count is bounded by both the noise count and
      the local-coincidence count off DeepCore; the local-coincidence counts on
      and off DeepCore together never exceed the number of hit DOMs. */
  lemma LCCountBounds(keys: set<OMKey>, raw: map<OMKey, seq<Launch>>)
    ensures var e := Expected(keys, raw);
      && e.icLCCut <= e.icNHits
      && e.icLCCut <= e.nICLC
      && e.nICLC + e.nDCLC == |WithLC(keys, raw)| <= |keys|
  {
    var lc := WithLC(keys, raw);
    WhereSubset(lc, keys, OffICRegion);
    WhereMono(lc, OffICRegion, OffDC);
    WhereDisjoint(lc, OffDC, OnDC, AnyDom);
    assert Where(lc, AnyDom) == lc;
    SubsetSize(lc, keys);
  }

  /** Against the counter without local coincidence, this one counts at least as
      many IceCube analysis hits (its region adds string 36), at least as many
      IceCube noise hits (strings 79 and 80 count as noise here), and the same
      DeepCore analysis hits. */
  lemma CompareWithGeneral(keys: set<OMKey>, raw: map<OMKey, seq<Launch>>)
    ensures Expected(keys, raw).icAnalysisHits >= |Where(keys, General.ICAnalysisHit)|
    ensures Expected(keys, raw).icNHits >= |Where(keys, General.ICNoiseHit)|
    ensures Expected(keys, raw).dcAnalysisHits == |Where(keys, General.DCAnalysisHit)|
  {
    assert forall s :: s in IC_STRINGS ==> s in IC_STRINGS_WITH_36;
    WhereMono(keys, General.ICAnalysisHit, ICAnalysisHit36);
    assert forall s :: s in IC_STRINGS_WITH_36 ==> s == 36 || s in IC_STRINGS;
    WhereMono(keys, General.ICNoiseHit, OffICRegion);
  }
}
