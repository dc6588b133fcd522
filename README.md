# IC86 event selection and DOM analysis, modelled in Dafny

This project models the selection logic of the IC86 muon-endpoint analysis
scripts: the fixed event filters, the event and DOM cuts with their split
into IceCube (IC) and DeepCore (DC) strings, the cross-validation
partitioning of the pulses of an event, the hit counters, the Monte-Carlo
truth muon, and the split of per-DOM data into distance bins.

The event frame is a class `Frames.Frame` holding a map from names to
framework objects (`Frames.Value`); operations that write to the frame are
methods with `modifies f`, read-only operations are functions or methods that
return a value. Boolean masks on arrays (`data[mask]`) are `Masks.Compress`,
specified by the positions `Masks.TrueIndices` it keeps. A missing frame key,
a lookup into an empty list or a division by zero in the source become an
error result (`Result.Err`, `Option.None` or an `ok` flag) wherever they
depend on the event data.

Modules:

- `Frames` — the frame, DOM keys (`OMKey`), pulses, raw launches, particles,
  filter results, tracks, `Option` and `Result`.
- `Names` — `output_name.format(i)` as prefix, decimal digits, suffix, and its
  injectivity.
- `Detector` — the string lists and minimum DOM positions.
- `Masks` — boolean-mask selection and element-wise AND.
- `Counting` — counting hit DOMs of a class.
- `Filters` — `process/filters.py` and the order `process/process.py` applies them in.
- `Cuts` — `cut/functions.py`.
- `DomAnalysis` — `om_partition` and the DOM selection and fit lookup of `dom_data`.
- `General` — `count_hits` and `get_truth_muon` of `process/general.py`.
- `Miscellaneous` — the local-coincidence `count_hits` of `process/miscellaneous.py`.
- `Calculate` — `dist_bin_split` of `plot/calculate.py`.

## Model

| member | source | states |
|---|---|---|
| Names.Decimal | process/domanalysis.py:21 | the decimal text of a partition number is non-empty, one digit exactly below 10, and ends in the last digit |
| Names.DecimalInjective | process/domanalysis.py:21 | different partition numbers have different decimal texts |
| Names.FormatInjective | process/domanalysis.py:20-22 | two partition names built from one template are equal only for equal partition numbers |
| Names.FormatDistinct | process/domanalysis.py:35-37 | distinct partitions get distinct frame names, so writing one never touches another |
| Detector.ListsDisjoint | cut/functions.py:132-133 | no DeepCore string is an IceCube-region string (with or without string 36), also for string numbers stored as doubles |
| Masks.TrueIndices | cut/functions.py:104 | a mask keeps at most as many positions as it has |
| Masks.TrueIndicesSpec | cut/functions.py:104 | the kept positions are exactly the true positions, strictly increasing |
| Masks.TrueIndicesCount | cut/functions.py:104 | the number of kept positions is the number of true mask entries |
| Masks.Compress | cut/functions.py:104 | boolean indexing returns one element per true mask entry |
| Masks.CompressAt | cut/functions.py:104 | the j-th selected element is the input element at the j-th true position |
| Masks.And | cut/functions.py:88 | definition of `pass_cut &= pass_cut_temp`: true exactly where both masks are; used by Cuts.CutMask and Masks.CompressCompose |
| Masks.TrueIndicesAllButOne | process/domanalysis.py:35-36 | a mask false at one position only keeps all positions but one |
| Masks.TrueIndicesAllTrue | cut/functions.py:77 | an all-true mask keeps every position |
| Masks.DisjointMasksCount | cut/functions.py:135-139 | two masks never true together select no more than the input holds |
| Masks.CompressSnoc | cut/functions.py:104 | one more element and mask entry adds the element exactly when the entry is true |
| Masks.CompressCompose | cut/functions.py:104-107 | selecting with one mask and then with the survivors of a second is selecting with their AND |
| Filters.InIce | process/filters.py:20-21 | keeps the event exactly when the event header's sub-event stream is `in_ice`; fails on a missing header |
| Filters.MinBias | process/filters.py:29-31 | keeps the event exactly when `FilterMinBias_11` passed both condition and prescale; fails on a missing filter mask or filter entry, naming which |
| Filters.SMT8 | process/filters.py:38-39 | keeps the event exactly when at least 8 DOMs have hard-local-coincidence pulses; fails on missing pulses |
| Filters.MPEFit | process/filters.py:47-49 | keeps the event exactly when the fit status is OK and the zenith is strictly between 40 and 70 degrees; fails on a missing fit |
| Filters.InIceSMTTriggered | process/filters.py:56 | keeps the event exactly when the trigger flag is set; fails on a missing flag |
| Filters.Outcomes | process/process.py:52-77 | the five filter outcomes in the order the processing chain adds the filter modules |
| Filters.RunChain | process/process.py:52-77 | the chain's outcome is either keeping the event or the outcome of one of its filters |
| Filters.RunChainFirst | process/process.py:52-77 | a chain of filters keeps the event exactly when every filter does; otherwise its outcome is the first filter's that does not keep it |
| Filters.BaseFiltersKeep | process/process.py:52-77 | the base filters keep an event exactly when all five conditions hold |
| Filters.SMT8Monotone | process/filters.py:38-39 | more hit DOMs never make the multiplicity filter drop a kept event |
| Cuts.Passes | cut/functions.py:34-37 | both cut comparisons are strict: a value equal to the threshold never passes |
| Cuts.MakeEventCuts | cut/functions.py:29-44 | keeps the frame exactly when every event cut passes; rejects exactly when some cut fails after all earlier ones passed; fails on the first cut variable that is not a double in the frame |
| Cuts.CutMask | cut/functions.py:77-88 | mask entry i is true exactly when DOM entry i passes every DOM cut |
| Cuts.StringMask | cut/functions.py:135-136 | definition of `np.in1d`: entry i is true exactly when string i is on the list; used by Cuts.ICDCSplitSelects |
| Cuts.ICDCSplit | cut/functions.py:132-141 | the IC and DC outputs have one entry per IC (resp. DC) string and together no more entries than the input |
| Cuts.ICDCSplitSelects | cut/functions.py:135-141 | each output is the input at every position on that region's strings, in order |
| Cuts.StringMaskCompress | cut/functions.py:91-92 | taking the string numbers of surviving DOMs and then testing them is testing and then selecting |
| Cuts.DomCutSelection | cut/functions.py:77-107 | a DOM entry reaches the IC (DC) output exactly when it passes every DOM cut and is on an IC (DC) string, in original order |
| Cuts.OutputKeysFrom | cut/functions.py:95-111 | every name the DOM cuts write is a kept DOM key other than `TimeResidual` with `IC` or `DC` appended |
| Cuts.OutputNamesDistinct | cut/functions.py:110-111 | the IC and DC names of distinct keys are distinct, and an IC name is never a DC name |
| Cuts.PassMaskUnique | cut/functions.py:77-88 | a mask true exactly where every DOM cut passes is the cut mask |
| Cuts.WriteSplit | cut/functions.py:101-111 | writes the cut, split data of one key under its IC and DC names and changes nothing else |
| Cuts.WrittenForKept | cut/functions.py:110-111 | writing the outputs of one key leaves the outputs of every other key as they were |
| Cuts.WrittenForPrefix | cut/functions.py:95-111 | after writing key i, every kept key up to and including i has its outputs in the frame |
| Cuts.DomCutsWrite | cut/functions.py:95-111 | writing the outputs of one more kept key adds exactly its two names, keeps every other entry, and keeps the outputs already written |
| Cuts.DomCutsSkip | cut/functions.py:97-98 | passing over `TimeResidual` writes nothing and keeps what was written |
| Cuts.DomCutsFinish | cut/functions.py:95-111 | after the last key the frame holds exactly the outputs of every kept key and nothing else changed |
| Cuts.CutDomKeys | cut/functions.py:95-111 | the loop over the DOM keys leaves the frame with the outputs of every kept key, the other entries unchanged |
| Cuts.MakeDomCuts | cut/functions.py:77-111 | the frame gains exactly the IC and DC names of the kept keys, nothing else changes, and each holds the cut, split data of its key |
| DomAnalysis.PartitionOf | process/domanalysis.py:32 | the partition of a DOM is below the number of partitions |
| DomAnalysis.Partition | process/domanalysis.py:29-39 | partition p holds every input DOM outside partition p, with its pulses unchanged, and no other DOM |
| DomAnalysis.DistributedAdd | process/domanalysis.py:34-39 | distributing one more DOM adds it to every partition but its own |
| DomAnalysis.PartitionKeysStep | process/domanalysis.py:20-22 | one more partition adds exactly one new name |
| DomAnalysis.EmptyPartitionsSpec | process/domanalysis.py:20-22 | the maps added for k partitions are named exactly by the k partition names and are all empty |
| DomAnalysis.WithEmptyPartitions | process/domanalysis.py:20-22 | adding the empty partition maps adds exactly the partition names, each empty, and keeps every other entry |
| DomAnalysis.InitPartitions | process/domanalysis.py:20-22 | creates an empty pulse map under each of the k partition names and changes nothing else |
| DomAnalysis.AddToOtherPartitions | process/domanalysis.py:31-39 | adds one DOM's pulses to every partition map except its own and changes nothing else |
| DomAnalysis.DistributePulses | process/domanalysis.py:29-39 | starting from empty partition maps, partition map p ends up holding `Partition` of the pulses, and nothing else changes |
| DomAnalysis.OmPartition | process/domanalysis.py:14-39 | succeeds exactly when the pulse map can be read and, with no partitions, is empty; the frame always gains exactly the partition names and nothing else changes; on success partition map p holds `Partition` of the pulses read, on failure every partition map is empty |
| DomAnalysis.Membership | process/domanalysis.py:34-39 | definition: entry p tells whether partition p holds the DOM; counted by DomAnalysis.ExactlyAllButOwn |
| DomAnalysis.ExactlyAllButOwn | process/domanalysis.py:34-39 | every DOM is in exactly k - 1 partitions, all but its own |
| DomAnalysis.PartitionsCoverInput | process/domanalysis.py:29-39 | with at least two partitions, the partitions together hold exactly the input DOMs |
| DomAnalysis.SelectedDom | process/domanalysis.py:94 | a DOM passes the string-and-position test when it is on an IceCube string from position 40 or on a DeepCore string from position 11; a passing DOM is on exactly one of the two lists and at position 11 or deeper |
| DomAnalysis.FitKey | process/domanalysis.py:97-98 | the fit a DOM is evaluated against is the one numbered by its partition; none without partitions |
| DomAnalysis.CrossValidation | process/domanalysis.py:94-98 | the fit a DOM is evaluated against is the only partition that lacks its pulses; every other partition holds them |
| General.TallyHits | process/general.py:59-75 | the four counters are the numbers of hit DOMs in the IC analysis region, the DC analysis region, and outside the IC and DC regions |
| General.CountHits | process/general.py:56-80 | stores the four counts as doubles and changes nothing else |
| General.HitCountBounds | process/general.py:66-75 | every count is at most the number of hit DOMs, and the IC noise count never exceeds the DC noise count |
| General.AnalysisHitsAreSelectedDoms | process/general.py:67-70 | the IC and DC analysis counts add up to the number of hit DOMs that pass `dom_data`'s string-and-position test (`DomAnalysis.SelectedDom`) |
| General.MuonMask | process/general.py:17-18 | definition: entry i is true exactly when in-ice particle i is a muon or anti-muon; used by General.CollectMuons and General.MuonCount |
| General.CollectMuons | process/general.py:16-19 | the collected muons are the in-ice muons in tree order |
| General.MuonCount | process/general.py:16-21 | the stored muon count is the number of in-ice particles that are muons |
| General.FirstMostEnergeticUnique | process/general.py:23-26 | there is one earliest most energetic muon |
| General.MostEnergetic | process/general.py:23-26 | returns a muon of the list with the highest energy, the earliest among equals |
| General.GetTruthMuon | process/general.py:10-28 | stores the muon count; succeeds exactly when there is a muon, then stores the earliest most energetic one and nothing else |
| Miscellaneous.WithLCStep | process/miscellaneous.py:107-115 | a visited DOM joins the local-coincidence set exactly when its first launch has the bit set |
| Miscellaneous.HitCountsStep | process/miscellaneous.py:104-117 | visiting one more DOM advances the counts over all hit DOMs by whether that DOM is of their class |
| Miscellaneous.LCCountsStep | process/miscellaneous.py:107-115 | visiting one more readable DOM advances the local-coincidence counts by whether it is of their class and has the bit set |
| Miscellaneous.ExpectedStep | process/miscellaneous.py:103-117 | visiting one more DOM advances each of the six counters by exactly that DOM's contribution |
| Miscellaneous.Classes | process/miscellaneous.py:104-117 | a DeepCore DOM is never counted as IC analysis or IC noise, and a non-DeepCore DOM never as DC analysis |
| Miscellaneous.TallyLCHits | process/miscellaneous.py:93-117 | fails exactly when some hit DOM has no raw launch; otherwise the six counters are the numbers of hit DOMs of each class |
| Miscellaneous.CountLCHits | process/miscellaneous.py:90-124 | stores the six counts when every hit DOM has a raw launch, otherwise leaves the frame as it was |
| Miscellaneous.LCCountBounds | process/miscellaneous.py:103-117 | the LC noise count is at most the noise count and the IC LC count; the IC and DC LC counts add up to the LC DOMs, at most all hit DOMs |
| Miscellaneous.CompareWithGeneral | process/miscellaneous.py:90-117 | this counter counts at least as many IC analysis and IC noise hits as the plain counter, and the same DC analysis hits |
| Calculate.BinMask | plot/calculate.py:21 | definition of `dist_cut`: entry i is true exactly when distance i lies in the half-open bin; used by Calculate.BinContents |
| Calculate.Bin | plot/calculate.py:21-24 | bin b has key (20b, 20b + 20) and no more elements than the input |
| Calculate.DistBinSplit | plot/calculate.py:13-26 | returns the seven bins from 0 to 140 in order, each holding the data whose distance it contains |
| Calculate.BinContents | plot/calculate.py:21-24 | a bin holds every element whose distance it contains, and only those, in original order |
| Calculate.CoveredRange | plot/calculate.py:19-21 | a distance lies in some bin exactly when it is in [0, 140), and never in two |
| Calculate.BinsHoldingCount | plot/calculate.py:19-21 | the first n bins hold a distance once if it is in [0, 20n), else never |
| Calculate.BinSizesLast | plot/calculate.py:21-24 | the last element adds to the bins' total size the number of bins holding its distance |
| Calculate.InRangeMask | plot/calculate.py:19-21 | definition: entry i is true exactly when distance i lies in [0, 140); used by Calculate.BinSizesTotal and Calculate.SplitSizes |
| Calculate.TotalSizeIsBinSizes | plot/calculate.py:19-24 | the returned bins' sizes add up bin by bin to the bin masks' counts |
| Calculate.BinSizesTotal | plot/calculate.py:19-24 | the bins together hold exactly the elements with distance in [0, 140) |
| Calculate.SplitSizes | plot/calculate.py:13-26 | the returned bins' sizes add up to the number of elements with distance in [0, 140), at most the input size |

## Left out

- Pulse-series masks: `.apply(frame)` is taken as already applied, so the frame holds the resulting pulse map.
- Floating point: distances, charges, thresholds and angles are real numbers; NaN and rounding are not modelled.
- Filters.MPEFit: the track holds its zenith in degrees; the radian-to-degree conversion is not modelled.
- The processing driver `process/process.py` beyond the order of the base filters: the reader, the trigger-check module that writes `InIceSMTTriggered`, and the module wiring.
- `dom_data` beyond the DOM selection and fit lookup (process/domanalysis.py:100-161): the geometry and Cherenkov calculations are framework calls.
- `reco_endpoint`, `truth_endpoint`, `move_cut_variables`, `cut/cut.py`, `plot/comparision.py`, `process/montecarlo.py`, the rest of `plot/calculate.py` and all file I/O are not part of this model.
- Cuts.MakeEventCuts: only boxed doubles are read; boolean or integer frame variables read through `.value` are not modelled, and neither is a cut operator other than `less than` and `greater than`.
- Cuts.MakeDomCuts: requires every cut variable and kept key to be a vector of the `String` length (numpy's broadcasting of length-one arrays and its errors on other lengths are not modelled), and requires that no kept key is the output name of another.
- Cuts.CutMask: requires every cut variable to be a vector of the right length in the frame.
- DomAnalysis.OmPartition: the framework's frame objects are treated as shared references, so writing into a partition map read from the frame updates the frame; the order DOMs are visited in is not fixed (the result does not depend on it).
- General.CountHits: requires the named pulse map in the frame.
- General.GetTruthMuon: requires the MC tree in the frame; only the in-ice particles' type names and energies are modelled.
- Miscellaneous.CountLCHits: requires the named pulse map and the raw data in the frame; a hit DOM without raw launches is modelled as a failure.
- Calculate.DistBinSplit: the ordered dictionary is a sequence of (key, data) pairs in insertion order.
