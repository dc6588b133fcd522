/** Cross-validation partitioning of the DOMs of an event, and the DOM
    selection and fit lookup that evaluate each DOM against the fit that never
    saw its pulses. */
module DomAnalysis {
  import opened Frames
  import opened Names
  import opened Detector
  import opened Masks

  /** The partition a DOM belongs to, for `k` partitions. */
  function PartitionOf(d: OMKey, k: nat): (p: nat)
    requires k > 0
    ensures p < k
  {
    (d.str + d.om) % k
  }

  /** The pulses partition `p` receives: every DOM of the input except those
      belonging to `p`, each with its pulses unchanged. */
  function Partition(src: map<OMKey, PulseSeries>, k: nat, p: nat): (m: map<OMKey, PulseSeries>)
    requires k > 0
    ensures forall d :: d in m <==> d in src && PartitionOf(d, k) != p
    ensures forall d :: d in m ==> m[d] == src[d]
  {
    map d | d in src && PartitionOf(d, k) != p :: src[d]
  }

  /** The names of the `k` partition maps. */
  ghost function PartitionKeys(t: Template, k: nat): set<string>
  {
    set p: nat | p < k :: Format(t, p)
  }

  /** The pulse map read after the partition maps were created: a name that is
      itself one of the partition names reads back an empty map; a name that is
      neither a partition name nor a pulse map of the frame fails the lookup. */
  ghost function PulsesRead(before: map<string, Value>, t: Template, k: nat, name: string): Option<map<OMKey, PulseSeries>>
  {
    if name in PartitionKeys(t, k) then Some(map[])
    else if name in before && before[name].PulseMap? then Some(before[name].pulses)
    else None
  }

  /** Pulses of DOMs already distributed, for partition `p`. */
  ghost function Distributed(src: map<OMKey, PulseSeries>, done: set<OMKey>, k: nat, p: nat): map<OMKey, PulseSeries>
    requires k > 0 && done <= src.Keys
  {
    map d | d in done && PartitionOf(d, k) != p :: src[d]
  }

  /** Distributing one more DOM adds it to every partition but its own. */
  lemma DistributedAdd(src: map<OMKey, PulseSeries>, done: set<OMKey>, k: nat, p: nat, d: OMKey)
    requires k > 0 && done <= src.Keys && d in src
    ensures Distributed(src, done + {d}, k, p)
      == if PartitionOf(d, k) != p then Distributed(src, done, k, p)[d := src[d]] else Distributed(src, done, k, p)
  {
  }

  /** One more partition adds one new name. */
  lemma PartitionKeysStep(t: Template, p: nat)
    ensures PartitionKeys(t, p + 1) == PartitionKeys(t, p) + {Format(t, p)}
    ensures Format(t, p) !in PartitionKeys(t, p)
  {
    forall q: nat | q < p ensures Format(t, q) != Format(t, p) {
      FormatDistinct(t, q, p);
    }
  }

  /** The empty pulse maps under the first `p` partition names. */
  ghost function EmptyPartitions(t: Template, p: nat): map<string, Value>
  {
    if p == 0 then map[] else EmptyPartitions(t, p - 1)[Format(t, p - 1) := PulseMap(map[])]
  }

  /** The empty partition maps are named exactly by the partition names, and
      each of them is empty. */
  lemma {:induction false} EmptyPartitionsSpec(t: Template, p: nat)
    ensures EmptyPartitions(t, p).Keys == PartitionKeys(t, p)
    ensures forall q: nat :: q < p ==> EmptyPartitions(t, p)[Format(t, q)] == PulseMap(map[])
  {
    if p > 0 {
      EmptyPartitionsSpec(t, p - 1);
      PartitionKeysStep(t, p - 1);
    }
  }

  /** Adding the empty partition maps to a frame adds exactly the partition
      names, each with an empty map, and keeps every other entry. */
  lemma WithEmptyPartitions(e0: map<string, Value>, t: Template, k: nat)
    ensures (e0 + EmptyPartitions(t, k)).Keys == e0.Keys + PartitionKeys(t, k)
    ensures forall key :: key in e0 && key !in PartitionKeys(t, k) ==> (e0 + EmptyPartitions(t, k))[key] == e0[key]
    ensures forall q: nat :: q < k ==> (e0 + EmptyPartitions(t, k))[Format(t, q)] == PulseMap(map[])
  {
    EmptyPartitionsSpec(t, k);
  }

  /** Give the frame an empty pulse map under each of the `k` partition names. */
  method InitPartitions(f: Frame, t: Template, k: nat)
    modifies f
    ensures f.entries == old(f.entries) + EmptyPartitions(t, k)
    ensures f.entries.Keys == old(f.entries).Keys + PartitionKeys(t, k)
    ensures forall key :: key in old(f.entries) && key !in PartitionKeys(t, k) ==> f.entries[key] == old(f.entries)[key]
    ensures forall q: nat :: q < k ==> f.entries[Format(t, q)] == PulseMap(map[])
  {
    var p := 0;
    while p < k
      invariant 0 <= p <= k
      invariant f.entries == old(f.entries) + EmptyPartitions(t, p)
    {
      f.entries := f.entries[Format(t, p) := PulseMap(map[])];
      p := p + 1;
    }
    WithEmptyPartitions(old(f.entries), t, k);
  }

  /** Put the pulses of one DOM into every partition map except the DOM's own. */
  method AddToOtherPartitions(f: Frame, t: Template, k: nat, dom: OMKey, pulses: PulseSeries)
    requires k > 0
    requires forall q: nat :: q < k ==> Format(t, q) in f.entries && f.entries[Format(t, q)].PulseMap?
    modifies f
    ensures f.entries.Keys == old(f.entries).Keys
    ensures forall key :: key in old(f.entries) && key !in PartitionKeys(t, k) ==> f.entries[key] == old(f.entries)[key]
    ensures forall q: nat :: q < k ==>
      f.entries[Format(t, q)] ==
        (if q != PartitionOf(dom, k) then PulseMap(old(f.entries)[Format(t, q)].pulses[dom := pulses])
         else old(f.entries)[Format(t, q)])
  {
    // Find out which partition the DOM is in.
    var partitionNum := (dom.str + dom.om) % k;
    var q := 0;
    while q < k
      invariant 0 <= q <= k
      invariant f.entries.Keys == old(f.entries).Keys
      invariant forall key :: key in old(f.entries) && key !in PartitionKeys(t, k) ==> f.entries[key] == old(f.entries)[key]
      invariant forall r: nat :: r < k ==>
        f.entries[Format(t, r)] ==
          (if r < q && r != partitionNum then PulseMap(old(f.entries)[Format(t, r)].pulses[dom := pulses])
           else old(f.entries)[Format(t, r)])
    {
      forall r: nat | r < k && r != q ensures Format(t, r) != Format(t, q) {
        FormatDistinct(t, r, q);
      }
      assert Format(t, q) in PartitionKeys(t, k);
      if q != partitionNum {
        var key := Format(t, q);
        f.entries := f.entries[key := PulseMap(f.entries[key].pulses[dom := pulses])];
      }
      q := q + 1;
    }
  }

  /** Copy the pulses of every DOM of `src` into every partition map except
      the DOM's own; the partition maps start out empty. */
  method DistributePulses(f: Frame, t: Template, k: nat, src: map<OMKey, PulseSeries>)
    requires k > 0
    requires forall q: nat :: q < k ==> Format(t, q) in f.entries && f.entries[Format(t, q)] == PulseMap(map[])
    modifies f
    ensures f.entries.Keys == old(f.entries).Keys
    ensures forall key :: key in old(f.entries) && key !in PartitionKeys(t, k) ==> f.entries[key] == old(f.entries)[key]
    ensures forall q: nat :: q < k ==> f.entries[Format(t, q)] == PulseMap(Partition(src, k, q))
  {
    var todo := src.Keys;
    ghost var done: set<OMKey> := {};
    while todo != {}
      invariant todo <= src.Keys && done == src.Keys - todo
      invariant f.entries.Keys == old(f.entries).Keys
      invariant forall key :: key in old(f.entries) && key !in PartitionKeys(t, k) ==> f.entries[key] == old(f.entries)[key]
      invariant forall q: nat :: q < k ==> f.entries[Format(t, q)] == PulseMap(Distributed(src, done, k, q))
      decreases todo
    {
      var dom :| dom in todo;
      AddToOtherPartitions(f, t, k, dom, src[dom]);
      forall q: nat | q < k ensures f.entries[Format(t, q)] == PulseMap(Distributed(src, done + {dom}, k, q)) {
        DistributedAdd(src, done, k, q, dom);
      }
      todo := todo - {dom};
      done := done + {dom};
    }
    forall q: nat | q < k ensures Distributed(src, done, k, q) == Partition(src, k, q) {
    }
  }

  /** Create `k` empty pulse maps named by `t`, then copy the pulses of every
      DOM into every partition map except its own. Fails, with only the empty
      partition maps created, when the pulse map cannot be read (lookup error)
      or when there are no partitions but there are DOMs (division by zero). */
  method OmPartition(f: Frame, t: Template, pulsesName: string, k: nat) returns (ok: bool)
    modifies f
    ensures var read := PulsesRead(old(f.entries), t, k, pulsesName);
      ok <==> read.Some? && (k > 0 || read.value == map[])
    ensures f.entries.Keys == old(f.entries).Keys + PartitionKeys(t, k)
    ensures forall key :: key in old(f.entries) && key !in PartitionKeys(t, k) ==> f.entries[key] == old(f.entries)[key]
    ensures ok ==> forall p: nat :: p < k ==>
      f.entries[Format(t, p)] == PulseMap(Partition(PulsesRead(old(f.entries), t, k, pulsesName).value, k, p))
    ensures !ok ==> f.entries == old(f.entries) + EmptyPartitions(t, k)
  {
    ghost var e0 := f.entries;
    // Initialise the partition maps.
    InitPartitions(f, t, k);

    // Get the pulse series.
    if pulsesName in PartitionKeys(t, k) {
      var q: nat :| q < k && Format(t, q) == pulsesName;
    }
    if !(pulsesName in f.entries && f.entries[pulsesName].PulseMap?) {
      return false;
    }
    var src := f.entries[pulsesName].pulses;
    assert Some(src) == PulsesRead(e0, t, k, pulsesName);
    if k == 0 {
      return src == map[];
    }
    DistributePulses(f, t, k, src);
    return true;
  }

  /** Entry `p` tells whether partition map `p` holds DOM `d`. */
  function Membership(src: map<OMKey, PulseSeries>, k: nat, d: OMKey): (m: seq<bool>)
    requires k > 0
    ensures |m| == k
    ensures forall p :: 0 <= p < k ==> (m[p] <==> d in Partition(src, k, p))
  {
    seq(k, p requires 0 <= p < k => d in Partition(src, k, p))
  }

  /** Every DOM of the input is in exactly `k - 1` partition maps: all but its own. */
  lemma ExactlyAllButOwn(src: map<OMKey, PulseSeries>, k: nat, d: OMKey)
    requires k > 0 && d in src
    ensures forall p :: 0 <= p < k ==> (Membership(src, k, d)[p] <==> p != PartitionOf(d, k))
    ensures |TrueIndices(Membership(src, k, d))| == k - 1
  {
    TrueIndicesAllButOne(Membership(src, k, d), PartitionOf(d, k));
  }

  /** With at least two partitions every input DOM lands in some partition, so
      together the partitions hold exactly the input DOMs. */
  lemma PartitionsCoverInput(src: map<OMKey, PulseSeries>, k: nat)
    requires k >= 2
    ensures (set p: nat, d | p < k && d in Partition(src, k, p) :: d) == src.Keys
  {
    forall d | d in src ensures exists p: nat :: p < k && d in Partition(src, k, p) {
      var other := if PartitionOf(d, k) == 0 then 1 else 0;
      assert d in Partition(src, k, other);
    }
  }

  /** The DOMs whose data is analysed: IceCube-region strings below the dust
      layer, and DeepCore strings from position 11 down. */
  predicate SelectedDom(d: OMKey)
    ensures SelectedDom(d) ==> (d.str in IC_STRINGS <==> d.str !in DC_STRINGS)
    ensures SelectedDom(d) ==> d.om >= DC_MIN_OM
  {
    ListsDisjoint();
    (d.str in IC_STRINGS && d.om >= IC_MIN_OM) || (d.str in DC_STRINGS && d.om >= DC_MIN_OM)
  }

  /** The name of the track fit a selected DOM is evaluated against; with no
      partitions the lookup fails (division by zero). */
  function FitKey(recoFit: Template, d: OMKey, k: nat): (r: Option<string>)
    ensures r.Some? <==> k > 0
    ensures k > 0 ==> r == Some(Format(recoFit, PartitionOf(d, k)))
  {
    if k == 0 then None else Some(Format(recoFit, (d.str + d.om) % k))
  }

  /** Cross-validation: the fit a DOM is evaluated against is the one of the only
      partition that lacks that DOM's pulses; every other partition holds them. */
  lemma CrossValidation(src: map<OMKey, PulseSeries>, recoFit: Template, k: nat, d: OMKey)
    requires k > 0 && d in src
    ensures exists p: nat :: p < k && FitKey(recoFit, d, k) == Some(Format(recoFit, p)) && d !in Partition(src, k, p)
    ensures forall p: nat :: p < k && FitKey(recoFit, d, k) == Some(Format(recoFit, p)) ==> d !in Partition(src, k, p)
    ensures forall p: nat :: p < k && FitKey(recoFit, d, k) != Some(Format(recoFit, p)) ==>
      d in Partition(src, k, p) && Partition(src, k, p)[d] == src[d]
  {
    var own := PartitionOf(d, k);
    assert FitKey(recoFit, d, k) == Some(Format(recoFit, own));
    forall p: nat | p < k && FitKey(recoFit, d, k) == Some(Format(recoFit, p))
      ensures p == own
    {
      FormatInjective(recoFit, p, own);
    }
  }
}
