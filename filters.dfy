/** The fixed event filters applied before any analysis: each inspects one
    frame object and keeps or drops the event. A filter whose object is
    missing, or is not of the expected kind, fails on that key. */
module Filters {
  import opened Frames
  import opened Counting

  /** The sub-event stream of the event header is `in_ice`. */
  function InIce(e: map<string, Value>): (r: Result<bool>)
    ensures r.Err? <==> !("I3EventHeader" in e && e["I3EventHeader"].EventHeader?)
    ensures r.Err? ==> r.key == "I3EventHeader"
    ensures r.Ok? ==> (r.value <==> e["I3EventHeader"].subEventStream == "in_ice")
  {
    if "I3EventHeader" in e && e["I3EventHeader"].EventHeader? then
      Ok(e["I3EventHeader"].subEventStream == "in_ice")
    else
      Err("I3EventHeader")
  }

  /** The minimum-bias filter passed both its condition and its prescale. */
  function MinBias(e: map<string, Value>): (r: Result<bool>)
    ensures r.Err? <==> !("FilterMask" in e && e["FilterMask"].FilterMask? && "FilterMinBias_11" in e["FilterMask"].results)
    ensures r.Err? ==> (r.key == "FilterMask" <==> !("FilterMask" in e && e["FilterMask"].FilterMask?))
    ensures r.Err? ==> r.key in {"FilterMask", "FilterMinBias_11"}
    ensures r.Ok? ==> (r.value <==> (e["FilterMask"].results["FilterMinBias_11"].conditionPassed
                                  && e["FilterMask"].results["FilterMinBias_11"].prescalePassed))
  {
    if !("FilterMask" in e && e["FilterMask"].FilterMask?) then
      Err("FilterMask")
    else
      var filterMask := e["FilterMask"].results;
      if "FilterMinBias_11" !in filterMask then
        Err("FilterMinBias_11")
      else
        var filterMinBias := filterMask["FilterMinBias_11"];
        Ok(filterMinBias.conditionPassed && filterMinBias.prescalePassed)
  }

  /** The least number of hit DOMs in the hard-local-coincidence pulses. */
  const SMT_MIN_DOMS: nat := 8

  /** At least eight DOMs have hard-local-coincidence pulses. */
  function SMT8(e: map<string, Value>): (r: Result<bool>)
    ensures r.Err? <==> !("TWOfflinePulsesHLC" in e && e["TWOfflinePulsesHLC"].PulseMap?)
    ensures r.Err? ==> r.key == "TWOfflinePulsesHLC"
    ensures r.Ok? ==> (r.value <==> |e["TWOfflinePulsesHLC"].pulses.Keys| >= SMT_MIN_DOMS)
  {
    if "TWOfflinePulsesHLC" in e && e["TWOfflinePulsesHLC"].PulseMap? then
      Ok(|e["TWOfflinePulsesHLC"].pulses| >= SMT_MIN_DOMS)
    else
      Err("TWOfflinePulsesHLC")
  }

  /** Lower and upper zenith bounds of the track fit, in degrees, both excluded. */
  const MIN_ZENITH: real := 40.0
  const MAX_ZENITH: real := 70.0

  /** The track fit succeeded and points strictly between 40 and 70 degrees of zenith. */
  function MPEFit(e: map<string, Value>): (r: Result<bool>)
    ensures r.Err? <==> !("MPEFit" in e && e["MPEFit"].Track?)
    ensures r.Err? ==> r.key == "MPEFit"
    ensures r.Ok? ==> (r.value <==> (e["MPEFit"].status == OK
                                  && MIN_ZENITH < e["MPEFit"].zenithDeg < MAX_ZENITH))
  {
    if "MPEFit" in e && e["MPEFit"].Track? then
      var mpe := e["MPEFit"];
      var angle := mpe.zenithDeg;
      Ok(mpe.status == OK && 40.0 < angle < 70.0)
    else
      Err("MPEFit")
  }

  /** The in-ice simple-multiplicity trigger flag is set. */
  function InIceSMTTriggered(e: map<string, Value>): (r: Result<bool>)
    ensures r.Err? <==> !("InIceSMTTriggered" in e && e["InIceSMTTriggered"].Bool?)
    ensures r.Err? ==> r.key == "InIceSMTTriggered"
    ensures r.Ok? ==> (r.value <==> e["InIceSMTTriggered"].b)
  {
    if "InIceSMTTriggered" in e && e["InIceSMTTriggered"].Bool? then
      Ok(e["InIceSMTTriggered"].b)
    else
      Err("InIceSMTTriggered")
  }

  /** The filter outcomes of an event, in the order the processing chain applies them. */
  function Outcomes(e: map<string, Value>): (rs: seq<Result<bool>>)
    ensures |rs| == 5
    ensures rs[0] == InIce(e) && rs[1] == MinBias(e) && rs[2] == SMT8(e)
    ensures rs[3] == MPEFit(e) && rs[4] == InIceSMTTriggered(e)
  {
    [InIce(e), MinBias(e), SMT8(e), MPEFit(e), InIceSMTTriggered(e)]
  }

  /** Run filters in order: the first one that drops the event or fails ends the chain. */
  function RunChain(rs: seq<Result<bool>>): (r: Result<bool>)
    ensures r == Ok(true) || r in rs
  {
    if |rs| == 0 then Ok(true)
    else if rs[0] != Ok(true) then rs[0]
    else RunChain(rs[1..])
  }

  /** The chain keeps an event exactly when every filter keeps it; otherwise its
      outcome is that of the first filter that does not keep it. */
  lemma {:induction false} RunChainFirst(rs: seq<Result<bool>>)
    ensures RunChain(rs) == Ok(true) <==> forall i :: 0 <= i < |rs| ==> rs[i] == Ok(true)
    ensures RunChain(rs) != Ok(true) ==>
      exists i :: 0 <= i < |rs| && RunChain(rs) == rs[i] && forall j :: 0 <= j < i ==> rs[j] == Ok(true)
  {
    if |rs| > 0 && rs[0] == Ok(true) {
      RunChainFirst(rs[1..]);
      if RunChain(rs) != Ok(true) {
        var i :| 0 <= i < |rs[1..]| && RunChain(rs[1..]) == rs[1..][i] && forall j :: 0 <= j < i ==> rs[1..][j] == Ok(true);
        assert RunChain(rs) == rs[i + 1];
        assert forall j :: 0 <= j < i + 1 ==> rs[j] == Ok(true) by {
          forall j | 0 <= j < i + 1 ensures rs[j] == Ok(true) {
            if j > 0 {
              assert rs[j] == rs[1..][j - 1];
            }
          }
        }
      }
      assert forall i :: 0 <= i < |rs[1..]| ==> rs[1..][i] == rs[i + 1];
    }
  }

  /** The base filters keep an event exactly when it is in-ice, passed the
      minimum-bias filter, has at least eight hit DOMs, a good track fit between
      40 and 70 degrees, and a set trigger flag. */
  lemma BaseFiltersKeep(e: map<string, Value>)
    ensures RunChain(Outcomes(e)) == Ok(true) <==>
      InIce(e) == Ok(true) && MinBias(e) == Ok(true) && SMT8(e) == Ok(true)
      && MPEFit(e) == Ok(true) && InIceSMTTriggered(e) == Ok(true)
  {
    RunChainFirst(Outcomes(e));
  }

  /** More hit DOMs never make the multiplicity filter drop an event it kept. */
  lemma SMT8Monotone(e: map<string, Value>, more: map<OMKey, PulseSeries>)
    requires "TWOfflinePulsesHLC" in e && e["TWOfflinePulsesHLC"].PulseMap?
    requires e["TWOfflinePulsesHLC"].pulses.Keys <= more.Keys
    requires SMT8(e) == Ok(true)
    ensures SMT8(e["TWOfflinePulsesHLC" := PulseMap(more)]) == Ok(true)
  {
    SubsetSize(e["TWOfflinePulsesHLC"].pulses.Keys, more.Keys);
  }
}
