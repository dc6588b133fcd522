/** The event frame and the framework objects the analysis layer reads and writes.

    A frame is a dictionary from names to framework objects. Only the kinds of
    object that the selection logic touches are represented; everything is a
    plain value except the frame itself, which the processing modules update in
    place. */
module Frames {

  /** A DOM key: the string (detector column) number and the position on it. */
  datatype OMKey = OMKey(str: nat, om: nat)

  /** A reconstructed pulse; its fields are carried along but never inspected. */
  datatype Pulse = Pulse(time: real, charge: real, width: real)

  type PulseSeries = seq<Pulse>

  /** One raw DOM launch; only the local-coincidence bit matters here. */
  datatype Launch = Launch(lcBit: bool)

  /** A Monte-Carlo particle, with its type name as the framework prints it. */
  datatype Particle = Particle(typeName: string, energy: real)

  /** The fit status of a reconstructed track. */
  datatype FitStatus = OK | NotSet | GeneralFailure | InsufficientHits | FailedToConverge | MissingSeed

  /** The outcome of one online filter. */
  datatype FilterResult = FilterResult(conditionPassed: bool, prescalePassed: bool)

  /** The framework objects stored in a frame. */
  datatype Value =
    | PulseMap(pulses: map<OMKey, PulseSeries>)          // pulse series map (mask already applied)
    | RawData(launches: map<OMKey, seq<Launch>>)         // raw launches per DOM
    | Double(x: real)                                    // a boxed double
    | Bool(b: bool)                                      // a boxed boolean
    | VectorDouble(xs: seq<real>)                        // a vector of doubles
    | EventHeader(subEventStream: string)
    | FilterMask(results: map<string, FilterResult>)
    | Track(status: FitStatus, zenithDeg: real)          // a reconstructed track, zenith in degrees
    | MCTree(inIce: seq<Particle>)                       // the in-ice particles of the MC tree
    | MCParticle(particle: Particle)

  datatype Option<T> = None | Some(value: T)

  /** A frame lookup either yields a value or fails on the named key. */
  datatype Result<T> = Ok(value: T) | Err(key: string)

  /** The event frame, updated in place by the processing modules. */
  class Frame {
    var entries: map<string, Value>

    constructor (initial: map<string, Value>)
      ensures entries == initial
    {
      entries := initial;
    }
  }
}
