/** The sending side of a stream as it is updated in place (lib/sendstate.c). */
module SendSides {
  import opened Basics
  import opened Ranges
  import opened RangeLists
  import opened SendStates

  class SendSide {
    const acked: RangeList
    const pending: RangeList
    var sizeInflight: nat
    var finalSize: nat
    var appError: nat
    var reliableSize: nat
    var eos: Eos

    ghost predicate Valid()
      reads this, acked, pending
    {
      && acked != pending && acked.Valid() && pending.Valid()
      && Anchored(acked.ranges) && Canonical(pending.ranges) && sizeInflight <= finalSize <= UINT64_MAX
    }

    function State(): SendState
      reads this, acked, pending
    {
      SendState(acked.ranges, pending.ranges, sizeInflight, finalSize, appError, reliableSize, eos)
    }

    constructor ()
      ensures Valid() && State() == Init() && fresh(acked) && fresh(pending)
    {
      acked := new RangeList.WithRange(0, 0);
      pending := new RangeList();
      sizeInflight, finalSize, appError, reliableSize, eos := 0, UINT64_MAX, UINT64_MAX, 0, Unsent;
    }

    method Activate()
      requires Valid()
      modifies pending
      ensures Valid() && State() == SendStates.Activate(old(State()))
    {
      hide Union, Separated;
      var n := |pending.ranges|;
      if n != 0 && pending.ranges[n - 1].end == finalSize {
        return;
      }
      UnionSeparated(pending.ranges, sizeInflight, finalSize);
      pending.Add(sizeInflight, finalSize);
    }

    method Shutdown(final: nat)
      requires Valid() && sizeInflight <= final <= UINT64_MAX && eos == Unsent
      modifies this, pending
      ensures Valid() && State() == SendStates.Shutdown(old(State()), final)
    {
      UnionSeparated(pending.ranges, sizeInflight, final);
      UnionOfNothing(pending.ranges, sizeInflight);
      if sizeInflight < final {
        pending.Add(sizeInflight, final);
      }
      DifferenceCanonical(pending.ranges, final, UINT64_MAX);
      pending.Subtract(final, UINT64_MAX);
      finalSize := final;
    }

    /** Resets the stream. A reset that follows another must drop the reliable size and keep the error code. */
    method Reset(error: nat, reliable: nat)
      requires Valid() && !TransferComplete(State()) && error < UINT64_MAX
      requires appError != UINT64_MAX ==> reliable == 0 && appError == error
      requires reliable <= ResetSize(State(), reliable) <= UINT64_MAX
      modifies this, acked, pending
      ensures Valid() && State() == ResetTo(old(State()), error, reliable)
    {
      hide Union, Difference, Separated, Covers;
      if sizeInflight < finalSize {
        finalSize := if reliable < sizeInflight then sizeInflight else reliable;
      }
      appError, reliableSize, eos := error, reliable, Unsent;
      AnchoredUnion(acked.ranges, reliable, finalSize);
      acked.Add(reliable, finalSize);
      DifferenceCanonical(pending.ranges, reliable, UINT64_MAX);
      pending.Subtract(reliable, UINT64_MAX);
    }

    method OnAcked(f: Sent) returns (bytesToShift: int, exhausted: bool)
      requires Valid() && f.start <= f.end
      modifies this, acked, pending
      ensures Valid() && State() == SendStates.Acked(old(State()), f)
      ensures Anchored(Union(old(acked.ranges), f.start, f.end))
      ensures bytesToShift == BytesToShift(old(State()), f) && exhausted == Exhausted(State())
    {
      hide Union, Difference, Separated, Covers;
      var before := acked.ranges[0].end;
      AnchoredUnion(acked.ranges, f.start, f.end);
      DifferenceCanonical(pending.ranges, f.start, f.end);
      if f.start != f.end {
        acked.Add(f.start, f.end);
        pending.Subtract(f.start, f.end);
      } else {
        UnionOfNothing(acked.ranges, f.start);
        NothingCut(pending.ranges, f.start);
      }
      if f.marker != NoMarker && f.marker == MarkerOf(State()) {
        eos := Delivered;
      }
      bytesToShift := acked.ranges[0].end - before;
      exhausted := CheckAmountOfState();
    }

    static lemma NothingCut(rs: seq<Range>, at: nat)
      ensures Difference(rs, at, at) == rs
    {
    }

    method OnLost(f: Sent) returns (exhausted: bool)
      requires Valid()
      modifies this, pending
      ensures Valid() && State() == SendStates.Lost(old(State()), f) && exhausted == Exhausted(State())
    {
      AddMissingIs(old(pending.ranges), acked.ranges, f.start, f.end);
      ReturnMissing(f.start, f.end);
      if f.marker != NoMarker && f.marker == MarkerOf(State()) && eos == InFlight {
        eos := Unsent;
      }
      exhausted := CheckAmountOfState();
    }

    static lemma AddMissingIs(pending: seq<Range>, acked: seq<Range>, s: nat, e: nat)
      requires Canonical(pending)
      ensures forall p :: Canonical(p) && Returned(p, pending, acked, s, e, e) ==> p == AddMissing(pending, acked, s, e)
    {
      AddMissingFacts(pending, acked, s, e);
      forall p | Canonical(p) && Returned(p, pending, acked, s, e, e) ensures p == AddMissing(pending, acked, s, e) {
        CanonicalUnique(p, AddMissing(pending, acked, s, e));
      }
    }

    /** What [s, e) has and `acked` leaves out has been added to `p0`, up to the offset `upTo`. */
    static ghost predicate Returned(p: seq<Range>, p0: seq<Range>, acked: seq<Range>, s: nat, e: nat, upTo: nat)
    {
      forall x: int :: Covers(p, x) <==> Covers(p0, x) || (s <= x < Min(e, upTo) && !Covers(acked, x))
    }

    /** Walks the acked ranges and adds to `pending` what lies between them within [s, e). */
    method ReturnMissing(s: nat, e: nat)
      requires Valid()
      modifies pending
      ensures Valid() && acked.ranges == old(acked.ranges)
      ensures Returned(pending.ranges, old(pending.ranges), acked.ranges, s, e, e)
    {
      hide Covers, Separated, Union;
      var start: nat, slot: nat := s, 0;
      ghost var p0: seq<Range>, upTo: nat := pending.ranges, s;
      while start < e
        invariant Valid() && slot < |acked.ranges| && s <= start
        invariant Returned(pending.ranges, p0, acked.ranges, s, e, upTo)
        invariant upTo == if slot == 0 then start else Max(start, acked.ranges[slot].start)
        invariant slot > 0 ==> acked.ranges[slot - 1].end <= start
        decreases |acked.ranges| - slot
      {
        CoveredUpTo(pending.ranges, p0, acked.ranges, s, e, upTo, slot);
        if start < acked.ranges[slot].end {
          start := acked.ranges[slot].end;
        }
        slot := slot + 1;
        if slot == |acked.ranges| || e <= acked.ranges[slot].start {
          if start < e {
            GapAdded(pending.ranges, p0, acked.ranges, s, e, start, e, slot);
            pending.Add(start, e);
          }
          return;
        }
        upTo := start;
        if start < acked.ranges[slot].start {
          upTo := acked.ranges[slot].start;
          GapAdded(pending.ranges, p0, acked.ranges, s, e, start, upTo, slot);
          pending.Add(start, acked.ranges[slot].start);
        }
      }
    }

    /** Nothing is missing between where the acked range `k` starts and where it ends. */
    static lemma CoveredUpTo(p: seq<Range>, p0: seq<Range>, acked: seq<Range>, s: nat, e: nat, upTo: nat, k: nat)
      requires Anchored(acked) && k < |acked| && acked[k].start <= upTo && Returned(p, p0, acked, s, e, upTo)
      ensures acked[k].start <= acked[k].end && Returned(p, p0, acked, s, e, Max(upTo, acked[k].end))
    {
    }

    /** Adding the gap between two neighbouring acked ranges. */
    static lemma GapAdded(p: seq<Range>, p0: seq<Range>, acked: seq<Range>, s: nat, e: nat, lo: nat, hi: nat, k: nat)
      requires Anchored(acked) && 0 < k <= |acked| && acked[k - 1].end <= lo < hi <= e && s <= lo
      requires k < |acked| ==> hi <= acked[k].start
      requires Canonical(p) && Returned(p, p0, acked, s, e, lo)
      ensures Canonical(Union(p, lo, hi)) && Returned(Union(p, lo, hi), p0, acked, s, e, hi)
    {
      UnionSeparated(p, lo, hi);
      forall x: int ensures Covers(Union(p, lo, hi), x) <==>
            Covers(p0, x) || (s <= x < Min(e, hi) && !Covers(acked, x)) {
        UnionCovers(p, lo, hi, x);
        if lo <= x < hi {
          NotBetween(acked, k, x);
        }
      }
    }

    static lemma NotBetween(rs: seq<Range>, k: nat, x: int)
      requires Separated(rs) && 0 < k <= |rs| && rs[k - 1].end <= x && (k < |rs| ==> x < rs[k].start)
      ensures !Covers(rs, x)
    {
      forall i | 0 <= i < |rs| ensures !(rs[i].start <= x < rs[i].end) {
        if i < k - 1 {
          assert rs[i].end < rs[k - 1].start;
        } else if i > k {
          assert rs[k].end < rs[i].start;
        }
      }
    }

    method CheckAmountOfState() returns (exhausted: bool)
      requires Valid()
      ensures exhausted == Exhausted(State())
      ensures var n := |acked.ranges| + |pending.ranges|;
              exhausted <==> n >= 256 && 128 * n > sizeInflight - acked.ranges[0].end
    {
      var n := |acked.ranges| + |pending.ranges|;
      if n < MAX_GAPS {
        return false;
      }
      return n * BYTES_PER_GAP > sizeInflight - acked.ranges[0].end;
    }
  }
}
