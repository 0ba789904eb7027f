/** The receiving side of a stream as it is updated in place (lib/recvstate.c), over the B+ tree of ranges. */
module RecvSides {
  import opened Basics
  import opened Ranges
  import opened SendStates
  import opened RecvStates
  import opened BPlusRanges

  class RecvSide {
    const received: BPlusRangeSet
    var dataOff: nat
    var eos: nat
    var appError: nat

    ghost predicate Valid()
      reads this, received
    {
      received.Valid() && Anchored(received.Contents()) && dataOff <= received.Contents()[0].end
    }

    ghost function State(): RecvState
      reads this, received
    {
      RecvState(received.Contents(), dataOff, eos, appError)
    }

    constructor ()
      ensures Valid() && State() == RecvInit() && fresh(received)
    {
      received := new BPlusRangeSet();
      dataOff, eos, appError := 0, UINT64_MAX, UINT64_MAX;
    }

    method TransferComplete() returns (complete: bool)
      requires Valid()
      ensures complete == RecvComplete(State())
      ensures complete <==> eos <= received.Contents()[0].end
    {
      var first := received.FirstRange();
      complete := first.start == 0 && first.end >= eos;
    }

    method BytesAllocated() returns (n: nat)
      requires Valid()
      ensures n == RecvStates.BytesAllocated(State())
      ensures n == Max(LastEnd(received.Contents()), if eos == UINT64_MAX then 0 else eos)
    {
      n := received.LastEnd();
      if eos != UINT64_MAX && eos > n {
        n := eos;
      }
    }

    /** Records the bytes of a STREAM frame, and narrows (off, len) to those that are to be buffered. Whatever the
        error, the ranges received are unchanged. */
    method Update(off0: nat, len0: nat, fin: bool, maxCommitted: nat, memory: bool)
      returns (error: RecvError, off: nat, len: nat)
      requires Valid() && !RecvComplete(State()) && off0 + len0 <= maxCommitted < UINT64_MAX
      requires received.Contents()[0].end <= maxCommitted
      modifies this, received
      ensures Valid() && dataOff == old(dataOff) && appError == old(appError)
      ensures error == FinalSizeError <==> old(ContradictsEnd(State(), off0 + len0, fin))
      ensures error == FinalSizeError <==>
              if old(eos) == UINT64_MAX then fin && off0 + len0 < old(LastEnd(received.Contents()))
              else off0 + len0 > old(eos) && appError == UINT64_MAX
      ensures error == FinalSizeError ==> State() == old(State())
      ensures error == ResourceError ==> State() == old(State()).(eos := EosAfter(old(State()), off0 + len0, fin))
      ensures error == NoError ==> State() == Updated(old(State()), off0, len0, fin)
                                   && Range(off, off + len) == Accepted(old(State()), off0, len0)
      ensures error != StreamStateError
      ensures var a, rs := Accepted(old(State()), off0, len0), old(received.Contents());
              var full := |rs| >= 63 && (|rs| >= 0x40_0000 || 1024 * |rs| > maxCommitted - rs[0].end);
              && (error == ResourceError ==>
                    a.start < a.end && !Touches(rs, a.start, a.end) && (full || (!memory && |rs| >= 16)))
              && (full && error != FinalSizeError && a.start < a.end && !Touches(rs, a.start, a.end) ==>
                    error == ResourceError)
    {
      hide BPlusRangeSet.Valid, Union, Separated, Touches;
      off, len := off0, len0;
      error := NoError;
      if eos == UINT64_MAX {
        if fin {
          var last := received.LastEnd();
          if off + len < last {
            error := FinalSizeError;
            return;
          }
          eos := off + len;
        }
      } else if off + len > eos {
        if appError == UINT64_MAX {
          error := FinalSizeError;
          return;
        }
        len := if off < eos then eos - off else 0;
      }
      NothingAdded(received.Contents(), off);
      if off + len <= dataOff {
        len := 0;
        return;
      }
      if off < dataOff {
        var delta := dataOff - off;
        off, len := off + delta, len - delta;
      }
      if len != 0 {
        AnchoredUnion(received.Contents(), off, off + len);
        HeadGrows(received.Contents(), off, off + len);
        var status := received.Add(off, off + len, maxCommitted, memory);
        if status != BPlusRanges.Ok {
          error := ResourceError;
        }
      } else {
        NothingAdded(received.Contents(), off);
      }
    }

    static lemma NothingAdded(rs: seq<Range>, at: nat)
      ensures Union(rs, at, at) == rs
    {
      UnionOfNothing(rs, at);
    }

    static lemma HeadGrows(rs: seq<Range>, s: nat, e: nat)
      requires Anchored(rs) && s <= e
      ensures Anchored(Union(rs, s, e)) && rs[0].end <= Union(rs, s, e)[0].end
    {
      hide Union, Separated, Covers;
      AnchoredUnion(rs, s, e);
      AnchoredHead(rs);
      AnchoredHead(Union(rs, s, e));
      UnionCovering(rs, s, e);
    }

    method OnReset(finalSize: nat, reliableSize: nat, error0: nat) returns (error: RecvError, bytesMissing: int)
      requires Valid() && !RecvComplete(State()) && reliableSize <= finalSize < UINT64_MAX && error0 < UINT64_MAX
      modifies this
      ensures Valid() && error == ResetError(old(State()), finalSize, error0)
      ensures error == NoError ==> State() == WasReset(old(State()), reliableSize, error0)
                                   && bytesMissing == BytesMissing(old(State()), finalSize)
      ensures error != NoError ==> State() == old(State())
      ensures var end := old(LastEnd(received.Contents()));
              && (error == FinalSizeError <==>
                    finalSize < end || (old(appError) == UINT64_MAX && old(eos) != UINT64_MAX && finalSize != old(eos)))
              && (error == StreamStateError <==>
                    end <= finalSize && old(appError) != UINT64_MAX && error0 != old(appError))
              && error != ResourceError
      ensures error == NoError ==>
                && received.Contents() == old(received.Contents()) && dataOff == old(dataOff)
                && (old(appError) != UINT64_MAX && reliableSize >= old(eos) ==>
                    eos == old(eos) && appError == old(appError))
                && (old(appError) == UINT64_MAX || reliableSize < old(eos) ==>
                      eos == Max(reliableSize, received.Contents()[0].end) && appError == error0)
    {
      hide BPlusRangeSet.Valid, Separated;
      bytesMissing, error := 0, NoError;
      var last := received.LastEnd();
      if finalSize < last {
        error := FinalSizeError;
        return;
      }
      if appError == UINT64_MAX {
        if eos != UINT64_MAX && eos != finalSize {
          error := FinalSizeError;
          return;
        }
        var charged := BytesAllocated();
        bytesMissing := finalSize - charged;
      } else {
        if appError != error0 {
          error := StreamStateError;
          return;
        }
        if reliableSize >= eos {
          return;
        }
      }
      var first := received.FirstRange();
      var reliable := reliableSize;
      if first.start == 0 && reliable < first.end {
        reliable := first.end;
      }
      eos, appError := reliable, error0;
    }
  }
}
