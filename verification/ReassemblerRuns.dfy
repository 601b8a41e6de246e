/** A reassembler fed a whole sequence of envelopes; an error does not stop it. */
module ReassemblerRuns {
  import opened Wrappers
  import opened JsonValues
  import opened Reassembler

  type Outcome = Result<Option<Json>, RelayError>

  function Outcomes(wire: Wire, buffer: Buffer, run: seq<Json>): seq<Outcome>
    decreases |run|
  {
    if run == [] then []
    else
      var (next, outcome) := ObserveStep(wire, buffer, run[0]);
      [outcome] + Outcomes(wire, next, run[1..])
  }

  function BufferAfter(wire: Wire, buffer: Buffer, run: seq<Json>): Buffer
    decreases |run|
  {
    if run == [] then buffer else BufferAfter(wire, ObserveStep(wire, buffer, run[0]).0, run[1..])
  }
}
