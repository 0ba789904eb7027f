/** Connection-level flow control as it is updated in place (apply_stream_frame, handle_reset_stream_frame,
    quicly_stream_sync_recvbuf and destroy_stream of lib/quicly.c). */
module Ingresses {
  import opened Basics
  import opened Ranges
  import opened SendStates
  import opened RecvStates
  import opened RecvSides
  import opened FlowCredits
  import BPlusRanges

  datatype FrameError = Fine | FlowControl | Contradiction | Exhaustion

  class Ingress {
    var bytesConsumed: nat
    var bytesShifted: nat
    var committed: nat

    ghost function Credits(): Credit
      reads this
    {
      Credit(bytesConsumed, bytesShifted, committed)
    }

    /** Processes a STREAM frame up to the point where its data goes to the receive buffer. */
    method ApplyStreamFrame(stream: RecvSide, off: nat, len: nat, fin: bool, streamCommitted: nat, memory: bool)
      returns (error: FrameError, applyAt: nat, applyLen: nat)
      requires stream.Valid() && WellFormed(stream.State()) && streamCommitted < UINT64_MAX
      requires stream.State().received[0].end <= streamCommitted
      modifies this`bytesConsumed, stream, stream.received
      ensures stream.Valid()
      ensures var f := StreamFrame(off, len, fin); var r := old(stream.State());
              && (RecvComplete(r) ==> error == Fine && applyLen == 0)
              && (error == Fine ==> Succeeds(r, old(Credits()), f) && StreamAfter(r, f).received != []
                                    && stream.State() == StreamAfter(r, f)
                                    && Credits() == CreditAfter(r, old(Credits()), f))
              && (error == Fine && !RecvComplete(r) ==> Range(applyAt, applyAt + applyLen) == Accepted(r, off, len))
              && (error == FlowControl <==> && !RecvComplete(r)
                                            && (off + len > streamCommitted
                                                || Overdrawn(r, old(Credits()), off + len)))
              && (error == FlowControl <==>
                  && !RecvComplete(r)
                  && (off + len > streamCommitted
                      || (r.appError == UINT64_MAX && BytesAllocated(r) < off + len
                          && old(bytesConsumed) + off + len - BytesAllocated(r) > committed)))
              && (error == Contradiction <==>
                  !RecvComplete(r) && error != FlowControl && ContradictsEnd(r, off + len, fin))
              && (error == Contradiction || error == FlowControl ==> stream.State() == r)
      ensures var r := old(stream.State()); var a, rs := Accepted(r, off, len), r.received;
              var full := |rs| >= 63 && (|rs| >= 0x40_0000 || 1024 * |rs| > streamCommitted - rs[0].end);
              && (error == Exhaustion ==> && !RecvComplete(r) && a.start < a.end && !Touches(rs, a.start, a.end)
                                          && (full || (!memory && |rs| >= 16)))
              && (full && !RecvComplete(r) && a.start < a.end && !Touches(rs, a.start, a.end) ==> error != Fine)
      ensures error == Fine && !old(RecvComplete(stream.State())) ==>
                bytesConsumed == old(bytesConsumed)
                  + if stream.appError == UINT64_MAX && old(BytesAllocated(stream.State())) < off + len
                    then off + len - old(BytesAllocated(stream.State())) else 0
    {
      hide BPlusRanges.BPlusRangeSet.Valid, Union, Separated;
      ghost var r := stream.State();
      error, applyAt, applyLen := Fine, off, 0;
      var complete := stream.TransferComplete();
      if complete {
        return;
      }
      if off + len > streamCommitted {
        error := FlowControl;
        return;
      }
      var charged := stream.BytesAllocated();
      if stream.appError == UINT64_MAX && charged < off + len {
        var newlyReceived := off + len - charged;
        if bytesConsumed + newlyReceived > committed {
          error := FlowControl;
          return;
        }
        bytesConsumed := bytesConsumed + newlyReceived;
      }
      var e;
      e, applyAt, applyLen := stream.Update(off, len, fin, streamCommitted, memory);
      if e == NoError {
        StreamKept(r, off, len, fin);
      }
      error := match e case NoError => Fine case FinalSizeError => Contradiction case _ => Exhaustion;
    }

    /** Processes a RESET_STREAM or RESET_STREAM_AT frame. */
    method HandleReset(stream: RecvSide, finalSize: nat, reliableSize: nat, appError: nat, streamCommitted: nat)
      returns (error: FrameError)
      requires stream.Valid() && WellFormed(stream.State()) && streamCommitted < UINT64_MAX
      requires reliableSize <= finalSize && appError < UINT64_MAX
      modifies this`bytesConsumed, this`bytesShifted, stream
      ensures stream.Valid()
      ensures var f := ResetFrame(finalSize, reliableSize, appError); var r := old(stream.State());
              && (error == Fine ==> Succeeds(r, old(Credits()), f) && StreamAfter(r, f).received != []
                                    && stream.State() == StreamAfter(r, f)
                                    && Credits() == CreditAfter(r, old(Credits()), f))
              && (error == FlowControl <==> || finalSize > streamCommitted
                                            || (!RecvComplete(r) && ResetError(r, finalSize, appError) == NoError
                                                && old(bytesConsumed) + BytesMissing(r, finalSize) > committed))
              && (error == Contradiction <==> && finalSize <= streamCommitted && !RecvComplete(r)
                                              && ResetError(r, finalSize, appError) != NoError)
              && error != Exhaustion
      ensures error == Fine && !old(RecvComplete(stream.State())) ==>
                bytesConsumed == if old(stream.appError) != UINT64_MAX then old(bytesConsumed)
                                 else old(bytesConsumed) + finalSize - old(BytesAllocated(stream.State()))
    {
      hide BPlusRanges.BPlusRangeSet.Valid, Separated;
      if finalSize > streamCommitted {
        return FlowControl;
      }
      var complete := stream.TransferComplete();
      if complete {
        return Fine;
      }
      ghost var r := stream.State();
      var before := finalSize;
      if stream.appError != UINT64_MAX {
        before := stream.BytesAllocated();
      }
      var e, missing := stream.OnReset(finalSize, reliableSize, appError);
      if e != NoError {
        return Contradiction;
      }
      if bytesConsumed + missing > committed {
        return FlowControl;
      }
      ResetKept(r, finalSize, reliableSize, appError);
      bytesConsumed := bytesConsumed + missing;
      var remaining := stream.BytesAllocated();
      bytesShifted := bytesShifted + (before - remaining);
      return Fine;
    }

    /** Advances the offset that the application has read up to. No more credit is returned than the stream holds, and
        exactly what was read unless the application goes beyond what is available. */
    method SyncRecvbuf(stream: RecvSide, n: nat)
      requires stream.Valid() && WellFormed(stream.State())
      modifies this`bytesShifted, stream`dataOff
      ensures stream.received.Valid() && stream.State() == old(stream.State()).(dataOff := old(stream.dataOff) + n)
      ensures bytesShifted == old(bytesShifted) + Released(old(stream.State()), n)
      ensures old(bytesShifted) <= bytesShifted <= old(bytesShifted) + Min(n, old(Held(stream.State())))
      ensures n <= old(BytesAvailable(stream.State())) ==>
                stream.Valid() && WellFormed(stream.State()) && bytesShifted == old(bytesShifted) + n
    {
      hide BPlusRanges.BPlusRangeSet.Valid, Separated;
      HeldNat(stream.State());
      if n <= BytesAvailable(stream.State()) {
        ShiftBalanced(stream.State(), n);
      }
      var limit := stream.BytesAllocated();
      var released := if limit > stream.dataOff then limit - stream.dataOff else 0;
      if released > n {
        released := n;
      }
      stream.dataOff := stream.dataOff + n;
      bytesShifted := bytesShifted + released;
    }

    /** Returns what the stream holds when it is destroyed. */
    method ReleaseAll(stream: RecvSide)
      requires stream.Valid() && WellFormed(stream.State())
      modifies this`bytesShifted
      ensures bytesShifted == old(bytesShifted) + Held(stream.State())
    {
      hide BPlusRanges.BPlusRangeSet.Valid, Separated;
      HeldNat(stream.State());
      var limit := stream.BytesAllocated();
      bytesShifted := bytesShifted + (limit - stream.dataOff);
    }
  }
}
