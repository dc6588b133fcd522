/** Hit counting and the Monte-Carlo truth muon. */
module General {
  import opened Frames
  import opened Detector
  import opened Masks
  import opened Counting
  import DomAnalysis

  /** A hit in the IceCube analysis region. */
  predicate ICAnalysisHit(d: OMKey)
  {
    d.str in IC_STRINGS && d.om >= IC_MIN_OM
  }

  /** A hit in the DeepCore analysis region. */
  predicate DCAnalysisHit(d: OMKey)
  {
    d.str in DC_STRINGS && d.om >= DC_MIN_OM
  }

  /** A hit outside the excluded, DeepCore and IceCube-region strings. */
  predicate ICNoiseHit(d: OMKey)
  {
    d.str !in EXCLUDED_STRINGS + DC_STRINGS + IC_STRINGS
  }

  /** A hit outside the excluded and DeepCore strings. */
  predicate DCNoiseHit(d: OMKey)
  {
    d.str !in EXCLUDED_STRINGS + DC_STRINGS
  }

  /** The four hit counters. */
  datatype HitCounts = HitCounts(icAnalysisHits: nat, dcAnalysisHits: nat, icNHits: nat, dcNHits: nat)

  /** Count, over the DOMs of a pulse map, the hits of each class. */
  method TallyHits(keys: set<OMKey>) returns (c: HitCounts)
    ensures c.icAnalysisHits == |Where(keys, ICAnalysisHit)|
    ensures c.dcAnalysisHits == |Where(keys, DCAnalysisHit)|
    ensures c.icNHits == |Where(keys, ICNoiseHit)|
    ensures c.dcNHits == |Where(keys, DCNoiseHit)|
  {
    var icAnalysisHits, dcAnalysisHits, icNHits, dcNHits := 0, 0, 0, 0;
    var todo := keys;
    ghost var done: set<OMKey> := {};
    while todo != {}
      invariant todo <= keys && done == keys - todo
      invariant icAnalysisHits == |Where(done, ICAnalysisHit)|
      invariant dcAnalysisHits == |Where(done, DCAnalysisHit)|
      invariant icNHits == |Where(done, ICNoiseHit)|
      invariant dcNHits == |Where(done, DCNoiseHit)|
      decreases todo
    {
      var dom :| dom in todo;
      if ICAnalysisHit(dom) {
        icAnalysisHits := icAnalysisHits + 1;
      }
      if DCAnalysisHit(dom) {
        dcAnalysisHits := dcAnalysisHits + 1;
      }
      if ICNoiseHit(dom) {
        icNHits := icNHits + 1;
      }
      if DCNoiseHit(dom) {
        dcNHits := dcNHits + 1;
      }
      WhereStep(done, ICAnalysisHit, dom);
      WhereStep(done, DCAnalysisHit, dom);
      WhereStep(done, ICNoiseHit, dom);
      WhereStep(done, DCNoiseHit, dom);
      todo := todo - {dom};
      done := done + {dom};
    }
    assert done == keys;
    c := HitCounts(icAnalysisHits, dcAnalysisHits, icNHits, dcNHits);
  }

  /** Count the hits of the named pulse map and store the four counters. */
  method CountHits(f: Frame, pulsesName: string)
    requires pulsesName in f.entries && f.entries[pulsesName].PulseMap?
    modifies f
    ensures var keys := old(f.entries)[pulsesName].pulses.Keys;
      f.entries == old(f.entries)
        ["ICAnalysisHits" := Double(|Where(keys, ICAnalysisHit)| as real)]
        ["DCAnalysisHits" := Double(|Where(keys, DCAnalysisHit)| as real)]
        ["ICNHits" := Double(|Where(keys, ICNoiseHit)| as real)]
        ["DCNHits" := Double(|Where(keys, DCNoiseHit)| as real)]
  {
    var pulseSeries := f.entries[pulsesName].pulses;
    var c := TallyHits(pulseSeries.Keys);
    f.entries := f.entries["ICAnalysisHits" := Double(c.icAnalysisHits as real)];
    f.entries := f.entries["DCAnalysisHits" := Double(c.dcAnalysisHits as real)];
    f.entries := f.entries["ICNHits" := Double(c.icNHits as real)];
    f.entries := f.entries["DCNHits" := Double(c.dcNHits as real)];
  }

  /** Every counter is bounded by the number of hit DOMs, and the IceCube
      noise count never exceeds the DeepCore noise count. */
  lemma HitCountBounds(keys: set<OMKey>)
    ensures |Where(keys, ICNoiseHit)| <= |Where(keys, DCNoiseHit)| <= |keys|
    ensures |Where(keys, ICAnalysisHit)| <= |keys| && |Where(keys, DCAnalysisHit)| <= |keys|
  {
    WhereMono(keys, ICNoiseHit, DCNoiseHit);
    WhereMono(keys, ICAnalysisHit, ICAnalysisHit);
    WhereMono(keys, DCAnalysisHit, DCAnalysisHit);
  }

  /** The two analysis counts together are the number of hit DOMs that pass the
      string-and-position test of the per-DOM analysis. */
  lemma AnalysisHitsAreSelectedDoms(keys: set<OMKey>)
    ensures |Where(keys, ICAnalysisHit)| + |Where(keys, DCAnalysisHit)| == |Where(keys, DomAnalysis.SelectedDom)|
  {
    ListsDisjoint();
    WhereDisjoint(keys, ICAnalysisHit, DCAnalysisHit, DomAnalysis.SelectedDom);
  }

  /** A muon or anti-muon. */
  predicate IsMuon(p: Particle)
  {
    p.typeName == "MuPlus" || p.typeName == "MuMinus"
  }

  /** Entry `i` tells whether particle `i` is a muon. */
  function MuonMask(ps: seq<Particle>): (m: seq<bool>)
    ensures |m| == |ps|
    ensures forall i :: 0 <= i < |ps| ==> (m[i] <==> IsMuon(ps[i]))
  {
    seq(|ps|, i requires 0 <= i < |ps| => IsMuon(ps[i]))
  }

  /** Collect the in-ice muons, in tree order. */
  method CollectMuons(inIce: seq<Particle>) returns (muons: seq<Particle>)
    ensures muons == Compress(inIce, MuonMask(inIce))
  {
    muons := [];
    var i := 0;
    while i < |inIce|
      invariant 0 <= i <= |inIce|
      invariant muons == Compress(inIce[..i], MuonMask(inIce[..i]))
    {
      var particle := inIce[i];
      assert inIce[..i + 1] == inIce[..i] + [particle];
      assert MuonMask(inIce[..i + 1]) == MuonMask(inIce[..i]) + [IsMuon(particle)];
      CompressSnoc(inIce[..i], MuonMask(inIce[..i]), particle, IsMuon(particle));
      if particle.typeName == "MuPlus" || particle.typeName == "MuMinus" {
        muons := muons + [particle];
      }
      i := i + 1;
    }
    assert inIce[..|inIce|] == inIce;
  }

  /** The number of collected muons is the number of in-ice particles that are muons. */
  lemma MuonCount(inIce: seq<Particle>)
    ensures |Compress(inIce, MuonMask(inIce))| == |set i | 0 <= i < |inIce| && IsMuon(inIce[i])|
  {
    var m := MuonMask(inIce);
    TrueIndicesCount(m);
    assert (set i | 0 <= i < |m| && m[i]) == (set i | 0 <= i < |inIce| && IsMuon(inIce[i]));
  }

  /** `best` is the most energetic muon, the earliest one among equals. */
  ghost predicate FirstMostEnergetic(muons: seq<Particle>, best: Particle)
  {
    exists i :: 0 <= i < |muons| && muons[i] == best
      && (forall j :: 0 <= j < |muons| ==> muons[j].energy <= best.energy)
      && (forall j :: 0 <= j < i ==> muons[j].energy < best.energy)
  }

  /** There is only one earliest most energetic muon. */
  lemma FirstMostEnergeticUnique(muons: seq<Particle>, a: Particle, b: Particle)
    requires FirstMostEnergetic(muons, a) && FirstMostEnergetic(muons, b)
    ensures a == b
  {
    var i :| 0 <= i < |muons| && muons[i] == a
      && (forall j :: 0 <= j < |muons| ==> muons[j].energy <= a.energy)
      && (forall j :: 0 <= j < i ==> muons[j].energy < a.energy);
    var k :| 0 <= k < |muons| && muons[k] == b
      && (forall j :: 0 <= j < |muons| ==> muons[j].energy <= b.energy)
      && (forall j :: 0 <= j < k ==> muons[j].energy < b.energy);
    assert a.energy == b.energy;
  }

  /** Running maximum: keep the first muon, replace it by any strictly more energetic one. */
  method MostEnergetic(muons: seq<Particle>) returns (best: Particle)
    requires |muons| > 0
    ensures best in muons
    ensures forall m :: m in muons ==> m.energy <= best.energy
    ensures FirstMostEnergetic(muons, best)
  {
    best := muons[0];
    ghost var at := 0;
    var i := 0;
    while i < |muons|
      invariant 0 <= at < |muons| && at <= i <= |muons| && muons[at] == best
      invariant forall j :: 0 <= j < i ==> muons[j].energy <= best.energy
      invariant forall j :: 0 <= j < at ==> muons[j].energy < best.energy
    {
      if muons[i].energy > best.energy {
        best := muons[i];
        at := i;
      }
      i := i + 1;
    }
  }

  /** Count the in-ice muons and store the count, then store the most energetic
      one; with no muons the count is stored and the selection fails. */
  method GetTruthMuon(f: Frame) returns (ok: bool)
    requires "I3MCTree" in f.entries && f.entries["I3MCTree"].MCTree?
    modifies f
    ensures var inIce := old(f.entries)["I3MCTree"].inIce;
      var muons := Compress(inIce, MuonMask(inIce));
      var counted := old(f.entries)["NumInIceMuons" := Double(|muons| as real)];
      && (ok <==> |muons| > 0)
      && (!ok ==> f.entries == counted)
      && (ok ==> "TruthMuon" in f.entries && f.entries == counted["TruthMuon" := f.entries["TruthMuon"]]
                 && f.entries["TruthMuon"].MCParticle?
                 && FirstMostEnergetic(muons, f.entries["TruthMuon"].particle))
  {
    var tree := f.entries["I3MCTree"].inIce;
    var muons := CollectMuons(tree);
    f.entries := f.entries["NumInIceMuons" := Double(|muons| as real)];
    if |muons| == 0 {
      return false;
    }
    var maxEnergyMuon := MostEnergetic(muons);
    f.entries := f.entries["TruthMuon" := MCParticle(maxEnergyMuon)];
    return true;
  }
}
