/** The state of the receiving side of a stream (lib/recvstate.c). */
module RecvStates {
  import opened Basics
  import opened Ranges
  import opened SendStates

  datatype RecvState = RecvState(received: seq<Range>, dataOff: nat, eos: nat, appError: nat)

  datatype RecvError = NoError | FinalSizeError | StreamStateError | ResourceError

  function RecvInit(): (r: RecvState)
  {
    RecvState([Range(0, 0)], 0, UINT64_MAX, UINT64_MAX)
  }

  function LastEnd(rs: seq<Range>): (n: nat)
    requires rs != []
  {
    rs[|rs| - 1].end
  }

  predicate RecvComplete(r: RecvState)
    requires r.received != []
  {
    r.received[0].start == 0 && r.received[0].end >= r.eos
  }

  function BytesAvailable(r: RecvState): (n: int)
    requires r.received != []
  {
    (if RecvComplete(r) then r.eos else r.received[0].end) - r.dataOff
  }

  /** The offset up to which memory has been allocated for the stream. */
  function BytesAllocated(r: RecvState): (n: nat)
    requires r.received != []
  {
    if r.eos != UINT64_MAX && r.eos > LastEnd(r.received) then r.eos else LastEnd(r.received)
  }

  /** Whether a STREAM frame contradicts what is known of where the stream ends. */
  predicate ContradictsEnd(r: RecvState, end: nat, fin: bool)
    requires r.received != []
  {
    if r.eos == UINT64_MAX then fin && end < LastEnd(r.received) else end > r.eos && r.appError == UINT64_MAX
  }

  function EosAfter(r: RecvState, end: nat, fin: bool): (n: nat)
  {
    if r.eos == UINT64_MAX && fin then end else r.eos
  }

  /** The part of a STREAM frame that is to be written to the receive buffer. */
  function Accepted(r: RecvState, off: nat, len: nat): (a: Range)
    ensures a.start <= a.end
  {
    var end := if r.eos != UINT64_MAX && off + len > r.eos then (if off < r.eos then r.eos else off) else off + len;
    if end <= r.dataOff then Range(off, off) else Range(Max(off, r.dataOff), end)
  }

  function Updated(r: RecvState, off: nat, len: nat, fin: bool): (r': RecvState)
  {
    var a := Accepted(r, off, len);
    r.(received := Union(r.received, a.start, a.end), eos := EosAfter(r, off + len, fin))
  }

  function ResetError(r: RecvState, finalSize: nat, appError: nat): (e: RecvError)
    requires r.received != []
  {
    if finalSize < LastEnd(r.received) then FinalSizeError
    else if r.appError == UINT64_MAX then
      if r.eos != UINT64_MAX && r.eos != finalSize then FinalSizeError else NoError
    else if r.appError != appError then StreamStateError
    else NoError
  }

  /** The part of the final size that will never be charged as data, due on the first reset. */
  function BytesMissing(r: RecvState, finalSize: nat): (n: int)
    requires r.received != []
  {
    if r.appError == UINT64_MAX then finalSize - BytesAllocated(r) else 0
  }

  function WasReset(r: RecvState, reliableSize: nat, appError: nat): (r': RecvState)
    requires r.received != []
  {
    if r.appError != UINT64_MAX && reliableSize >= r.eos then r
    else r.(eos := if r.received[0].start == 0 then Max(reliableSize, r.received[0].end) else reliableSize,
            appError := appError)
  }
}
