/** Sending on a stream (quicly_send_stream and on_ack_stream_ack_one of lib/quicly.c). */
module StreamSenders {
  import opened Basics
  import opened Ranges
  import opened RangeLists
  import opened SendStates
  import opened SendSides
  import opened StreamBufs

  /** What a call puts in the packet: the frame that the sentmap records, and the bytes that it carries. */
  datatype Output = Output(frame: Sent, data: seq<Byte>)

  class StreamSender {
    const side: SendSide
    const buf: SendBuf

    ghost predicate Valid()
      reads this, side, side.acked, side.pending, buf
    {
      side.Valid() && buf.Valid()
    }

    constructor ()
      ensures Valid() && side.State() == Init() && buf.Contents() == []
    {
      side := new SendSide();
      buf := new SendBuf();
    }

    /** The number of bytes to send from `off`: limited by the space left, by the credit of the stream and of the
        connection for bytes not sent before, and by the pending range. */
    static function Cap(off: nat, room: nat, maxStreamData: nat, size: nat, credit: nat, end: nat): (len: int)
      requires off <= maxStreamData && off <= size + credit && off <= end
      ensures len <= room && off + len <= maxStreamData && off + len <= Max(size, size + credit) && off + len <= end
      ensures len == Min(Min(room, maxStreamData - off), Min(size + credit - off, end - off))
    {
      var a := if off + room > maxStreamData then maxStreamData - off else room;
      var b := if off + a > size && off + a - size > credit then size + credit - off else a;
      if b > end - off then end - off else b
    }

    /** Sends from the first pending offset; a FIN is bundled when the frame reaches the end of the stream. What is sent
        for the first time stays within the credit of the connection. `abort` is the error with which the application
        resets the stream while it is asked for the data, if it does; the frame is then dropped. */
    method SendData(room: nat, maxStreamData: nat, credit: nat, abort: Option<nat>)
      returns (sent: Option<Output>, wroteAll: bool)
      requires Valid() && side.pending.ranges != []
      requires var off, base := side.pending.ranges[0].start, side.acked.ranges[0].end;
               && base <= off < base + |buf.Contents()| && 0 < room
               && off < Min(maxStreamData, side.sizeInflight + credit)
               && side.pending.ranges[0].end <= side.finalSize
      requires abort.Some? ==>
                 && !TransferComplete(side.State()) && MarkerOf(side.State()) != Reset && abort.value < UINT64_MAX
                               && (side.appError != UINT64_MAX ==> side.appError == abort.value)
      modifies side, side.acked, side.pending
      ensures Valid() && buf.Contents() == old(buf.Contents())
      ensures sent == None <==> abort.Some?
      ensures abort.Some? ==> side.State() == ResetTo(old(side.State()), abort.value, 0)
      ensures sent.Some? ==>
                var out := sent.value; var at := out.frame.start - old(side.acked.ranges[0].end);
                && out.data != [] && |out.data| <= room && out.frame == DataFrame(old(side.State()), |out.data|)
                && side.State() == AfterSend(old(side.State()), out.frame, wroteAll)
                && 0 <= at && at + |out.data| <= |buf.Contents()| && out.data == buf.Contents()[at..at + |out.data|]
                && (wroteAll ==> at + |out.data| == |buf.Contents()|)
                && out.frame.end <= old(side.pending.ranges[0].end) && out.frame.end <= maxStreamData
                && var off := old(side.pending.ranges[0].start);
                   |out.data| == Min(Min(Min(room, maxStreamData - off),
                                         Min(old(side.sizeInflight) + credit - off,
                                             old(side.pending.ranges[0].end) - off)),
                                     |buf.Contents()| - at)
      ensures side.sizeInflight - old(side.sizeInflight) <= credit
    {
      hide Separated, Difference, SendBuf.Valid, SendBuf.Contents;
      PendingSpan(side.pending.ranges);
      var off := side.pending.ranges[0].start;
      var len := Cap(off, room, maxStreamData, side.sizeInflight, credit, side.pending.ranges[0].end);
      var data;
      data, wroteAll := buf.Emit(off - side.acked.ranges[0].end, len);
      if abort.Some? {
        side.Reset(abort.value, 0);
        return None, wroteAll;
      }
      var fin := off + |data| == side.finalSize && side.appError == UINT64_MAX;
      var out := Output(Sent(off, off + |data|, if fin then Fin else NoMarker), data);
      UpdateState(out.frame, wroteAll);
      sent := Some(out);
    }

    static lemma PendingSpan(rs: seq<Range>)
      requires Canonical(rs) && rs != []
      ensures rs[0].start < rs[0].end
    {
    }

    /** What sending a STREAM frame does to the state. */
    method UpdateState(f: Sent, wroteAll: bool)
      requires side.Valid() && f.start <= f.end <= side.finalSize
      modifies side, side.pending
      ensures side.Valid() && side.State() == AfterSend(old(side.State()), f, wroteAll)
    {
      hide Separated, Difference;
      if side.sizeInflight < f.end {
        side.sizeInflight := f.end;
      }
      DifferenceCanonical(side.pending.ranges, f.start, f.end);
      NothingCut(side.pending.ranges, f.start, f.end);
      if f.start != f.end {
        side.pending.Subtract(f.start, f.end);
      }
      if f.marker == Fin {
        side.eos := InFlight;
      }
      if wroteAll {
        DifferenceCanonical(side.pending.ranges, side.sizeInflight, UINT64_MAX);
        side.pending.Subtract(side.sizeInflight, UINT64_MAX);
      }
    }

    static lemma NothingCut(rs: seq<Range>, s: nat, e: nat)
      ensures s >= e ==> Difference(rs, s, e) == rs
    {
    }

    /** When nothing but the marker is left to send: a FIN alone, or a reset, which carries no data. */
    method SendMarker() returns (out: Output)
      requires Valid() && side.finalSize != UINT64_MAX && side.eos == Unsent
      requires side.pending.ranges == [] && side.sizeInflight == side.finalSize
      modifies side
      ensures Valid() && out == Output(MarkerFrame(old(side.State())), [])
      ensures side.State() == old(side.State()).(eos := InFlight)
    {
      var marker := if side.appError == UINT64_MAX then Fin else if side.reliableSize != 0 then ResetAt else Reset;
      out := Output(Sent(side.finalSize, side.finalSize, marker), []);
      side.eos := InFlight;
    }

    /** An ack: bytes that are now contiguously acked leave the send buffer. */
    method OnAck(f: Sent) returns (exhausted: bool)
      requires Valid() && f.start <= f.end
      requires Anchored(side.acked.ranges) && Anchored(Union(side.acked.ranges, f.start, f.end))
      requires 0 <= BytesToShift(side.State(), f) <= |buf.Contents()|
      modifies side, side.acked, side.pending, buf
      ensures Valid() && side.State() == SendStates.Acked(old(side.State()), f) && exhausted == Exhausted(side.State())
      ensures buf.Contents() == if exhausted then old(buf.Contents())
              else old(buf.Contents())[BytesToShift(old(side.State()), f)..]
    {
      hide Separated, Difference, Union, SendBuf.Valid, SendBuf.Contents;
      var shift;
      shift, exhausted := side.OnAcked(f);
      if !exhausted && shift != 0 {
        buf.Shift(shift);
      }
    }
  }
}
