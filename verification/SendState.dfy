/** The state of the sending side of a stream (lib/sendstate.c). */
module SendStates {
  import opened Basics
  import opened Ranges

  /** What tells the peer where the stream ends; a later one supersedes an earlier one. */
  datatype Marker = NoMarker | Fin | ResetAt | Reset

  function Level(m: Marker): (n: nat)
    ensures n < 4
  {
    match m case NoMarker => 0 case Fin => 1 case ResetAt => 2 case Reset => 3
  }

  datatype Eos = Unsent | InFlight | Delivered

  /** What a sent frame carries: the bytes of [start, end) and a marker. */
  datatype Sent = Sent(start: nat, end: nat, marker: Marker)

  datatype SendState = SendState(acked: seq<Range>, pending: seq<Range>, sizeInflight: nat, finalSize: nat,
                                 appError: nat, reliableSize: nat, eos: Eos)

  const MAX_GAPS: nat := 256
  const BYTES_PER_GAP: nat := 128

  // ----- lists of ranges that start at offset zero -----

  ghost predicate Anchored(rs: seq<Range>)
  {
    Separated(rs) && rs != [] && rs[0].start == 0
  }

  lemma AnchoredUnion(rs: seq<Range>, s: nat, e: nat)
    requires Anchored(rs) && s <= e
    ensures Anchored(Union(rs, s, e))
  {
    UnionSeparated(rs, s, e);
    if s == e {
      UnionOfNothing(rs, s);
    } else {
      UnionHead(rs, s, e);
    }
  }

  lemma UnionHead(rs: seq<Range>, s: nat, e: nat)
    requires Anchored(rs) && s < e
    ensures Union(rs, s, e) != [] && Union(rs, s, e)[0].start == 0
  {
    hide Union, Separated;
    var lo, hi := UnionTouches(rs, s, e);
    if lo > 0 {
      assert Union(rs, s, e)[0] == rs[0];
    } else {
      TouchesHead(rs, s, e, hi);
    }
  }

  lemma TouchesHead(rs: seq<Range>, s: nat, e: nat, hi: nat)
    requires Anchored(rs) && s < e && Touching(rs, s, e, 0, hi)
    ensures hi > 0 && Joined(rs, 0, hi, s, e).start == 0
  {
    assert rs[0..][0] == rs[0];
  }

  /** The end of the first range is the least offset that is not covered. */
  lemma AnchoredHead(rs: seq<Range>)
    requires Anchored(rs)
    ensures forall x: int :: 0 <= x < rs[0].end ==> Covers(rs, x)
    ensures !Covers(rs, rs[0].end)
  {
    forall i | 0 <= i < |rs| ensures !(rs[i].start <= rs[0].end < rs[i].end) {
      assert i > 0 ==> rs[0].end < rs[i].start;
    }
  }

  lemma AnchoredTail(rs: seq<Range>)
    requires Anchored(rs)
    ensures Canonical(rs[1..]) && (rs[0].end > 0 ==> Canonical(rs))
    ensures forall x: int :: Covers(rs[1..], x) <==> Covers(rs, x) && rs[0].end <= x
  {
    Slices(rs, 1, 1);
    forall x: int ensures Covers(rs[1..], x) <==> Covers(rs, x) && rs[0].end <= x {
      if Covers(rs[1..], x) {
        var i :| 0 <= i < |rs[1..]| && rs[1..][i].start <= x < rs[1..][i].end;
        assert rs[1..][i] == rs[i + 1] && rs[0].end < rs[i + 1].start;
      }
      if Covers(rs, x) && rs[0].end <= x {
        var i :| 0 <= i < |rs| && rs[i].start <= x < rs[i].end;
        assert rs[1..][i - 1] == rs[i];
      }
    }
  }

  lemma AnchoredUnique(a: seq<Range>, b: seq<Range>)
    requires Anchored(a) && Anchored(b) && SameCover(a, b)
    ensures a == b
  {
    hide Covers, Separated;
    AnchoredHead(a);
    AnchoredHead(b);
    assert Covers(a, a[0].end) <==> Covers(b, a[0].end);
    assert Covers(a, b[0].end) <==> Covers(b, b[0].end);
    AnchoredTail(a);
    AnchoredTail(b);
    CanonicalUnique(a[1..], b[1..]);
    assert a == [a[0]] + a[1..] && b == [b[0]] + b[1..];
  }

  lemma UnionCovering(rs: seq<Range>, s: nat, e: nat)
    requires Separated(rs) && s <= e
    ensures forall x: int :: Covers(Union(rs, s, e), x) <==> Covers(rs, x) || s <= x < e
  {
    forall x: int ensures Covers(Union(rs, s, e), x) <==> Covers(rs, x) || s <= x < e {
      UnionCovers(rs, s, e, x);
    }
  }

  lemma DifferenceCovering(rs: seq<Range>, s: nat, e: nat)
    requires Canonical(rs)
    ensures Canonical(Difference(rs, s, e))
    ensures forall x: int :: Covers(Difference(rs, s, e), x) <==> Covers(rs, x) && !(s <= x < e)
  {
    DifferenceCanonical(rs, s, e);
    forall x: int ensures Covers(Difference(rs, s, e), x) <==> Covers(rs, x) && !(s <= x < e) {
      DifferenceCovers(rs, s, e, x);
    }
  }

  // ----- several ranges at once -----

  function MinusAll(rs: seq<Range>, cuts: seq<Range>): (r: seq<Range>)
    decreases |cuts|
  {
    if cuts == [] then rs else MinusAll(Difference(rs, cuts[0].start, cuts[0].end), cuts[1..])
  }

  predicate Forward(rs: seq<Range>)
  {
    forall i :: 0 <= i < |rs| ==> rs[i].start <= rs[i].end
  }

  function UnionAll(rs: seq<Range>, more: seq<Range>): (r: seq<Range>)
    requires Forward(more)
    decreases |more|
  {
    if more == [] then rs else UnionAll(Union(rs, more[0].start, more[0].end), more[1..])
  }

  lemma {:induction false} MinusAllFacts(rs: seq<Range>, cuts: seq<Range>)
    requires Canonical(rs)
    ensures Canonical(MinusAll(rs, cuts)) && Forward(MinusAll(rs, cuts))
    ensures forall x: int :: Covers(MinusAll(rs, cuts), x) <==> Covers(rs, x) && !Covers(cuts, x)
    decreases |cuts|
  {
    if cuts == [] {
    } else {
      var rs' := Difference(rs, cuts[0].start, cuts[0].end);
      DifferenceCanonical(rs, cuts[0].start, cuts[0].end);
      MinusAllFacts(rs', cuts[1..]);
      forall x: int ensures Covers(MinusAll(rs, cuts), x) <==> Covers(rs, x) && !Covers(cuts, x) {
        DifferenceCovers(rs, cuts[0].start, cuts[0].end, x);
        ConsCovers(cuts, x);
      }
    }
  }

  lemma ConsCovers(rs: seq<Range>, x: int)
    requires rs != []
    ensures Covers(rs, x) <==> rs[0].start <= x < rs[0].end || Covers(rs[1..], x)
  {
    SplitCovers(rs, 0, 1, x);
    assert rs[0..1] == [rs[0]] && rs[..0] == [];
    SingleCovers(rs[0], x);
  }

  lemma {:induction false} UnionAllFacts(rs: seq<Range>, more: seq<Range>)
    requires Canonical(rs) && Forward(more)
    ensures Canonical(UnionAll(rs, more))
    ensures forall x: int :: Covers(UnionAll(rs, more), x) <==> Covers(rs, x) || Covers(more, x)
    decreases |more|
  {
    if more == [] {
    } else {
      var rs' := Union(rs, more[0].start, more[0].end);
      UnionSeparated(rs, more[0].start, more[0].end);
      UnionAllFacts(rs', more[1..]);
      forall x: int ensures Covers(UnionAll(rs, more), x) <==> Covers(rs, x) || Covers(more, x) {
        UnionCovers(rs, more[0].start, more[0].end, x);
        ConsCovers(more, x);
      }
    }
  }

  /** Adds to `pending` the part of [s, e) that `acked` leaves out. */
  function AddMissing(pending: seq<Range>, acked: seq<Range>, s: nat, e: nat): (r: seq<Range>)
  {
    var gaps := MinusAll(if s < e then [Range(s, e)] else [], acked);
    if Forward(gaps) then UnionAll(pending, gaps) else pending
  }

  lemma AddMissingFacts(pending: seq<Range>, acked: seq<Range>, s: nat, e: nat)
    requires Canonical(pending)
    ensures Canonical(AddMissing(pending, acked, s, e))
    ensures forall x: int :: Covers(AddMissing(pending, acked, s, e), x)
                             <==> Covers(pending, x) || (s <= x < e && !Covers(acked, x))
  {
    var whole := if s < e then [Range(s, e)] else [];
    MinusAllFacts(whole, acked);
    UnionAllFacts(pending, MinusAll(whole, acked));
    forall x: int ensures Covers(whole, x) <==> s <= x < e {
      SingleCovers(Range(s, e), x);
    }
  }

  // ----- the operations -----

  function Init(): (s: SendState)
  {
    SendState([Range(0, 0)], [], 0, UINT64_MAX, UINT64_MAX, 0, Unsent)
  }

  predicate IsOpen(s: SendState)
  {
    s.finalSize == UINT64_MAX
  }

  function MarkerOf(s: SendState): (m: Marker)
  {
    if IsOpen(s) then NoMarker
    else if s.appError == UINT64_MAX then Fin
    else if s.reliableSize != 0 then ResetAt else Reset
  }

  predicate TransferComplete(s: SendState)
    requires s.acked != []
  {
    s.acked[0].end == s.finalSize && (s.eos == Delivered || (s.appError != UINT64_MAX && s.reliableSize == 0))
  }

  function Activate(s: SendState): (r: SendState)
    requires s.sizeInflight <= s.finalSize
  {
    if s.pending != [] && s.pending[|s.pending| - 1].end == s.finalSize then s
    else s.(pending := Union(s.pending, s.sizeInflight, s.finalSize))
  }

  function Shutdown(s: SendState, finalSize: nat): (r: SendState)
    requires s.sizeInflight <= finalSize <= UINT64_MAX
  {
    s.(pending := Difference(Union(s.pending, s.sizeInflight, finalSize), finalSize, UINT64_MAX),
       finalSize := finalSize)
  }

  /** Where a stream ends once it is reset. */
  function ResetSize(s: SendState, reliableSize: nat): (n: nat)
  {
    if s.sizeInflight < s.finalSize then Max(reliableSize, s.sizeInflight) else s.finalSize
  }

  function ResetTo(s: SendState, appError: nat, reliableSize: nat): (r: SendState)
    requires reliableSize <= ResetSize(s, reliableSize)
  {
    var n := ResetSize(s, reliableSize);
    s.(acked := Union(s.acked, reliableSize, n), pending := Difference(s.pending, reliableSize, UINT64_MAX),
       finalSize := n, appError := appError, reliableSize := reliableSize, eos := Unsent)
  }

  function Acked(s: SendState, f: Sent): (r: SendState)
    requires f.start <= f.end
  {
    s.(acked := Union(s.acked, f.start, f.end), pending := Difference(s.pending, f.start, f.end),
       eos := if f.marker != NoMarker && f.marker == MarkerOf(s) then Delivered else s.eos)
  }

  /** The number of bytes that an ack lets the send buffer discard. */
  function BytesToShift(s: SendState, f: Sent): (n: int)
    requires f.start <= f.end && s.acked != [] && Union(s.acked, f.start, f.end) != []
  {
    Union(s.acked, f.start, f.end)[0].end - s.acked[0].end
  }

  function Lost(s: SendState, f: Sent): (r: SendState)
  {
    s.(pending := AddMissing(s.pending, s.acked, f.start, f.end),
       eos := if f.marker != NoMarker && f.marker == MarkerOf(s) && s.eos == InFlight then Unsent else s.eos)
  }

  /** Whether there are too many gaps for the amount of data being buffered. */
  predicate Exhausted(s: SendState)
    requires s.acked != []
  {
    var n := |s.acked| + |s.pending|;
    n >= MAX_GAPS && n * BYTES_PER_GAP > s.sizeInflight - s.acked[0].end
  }

  /** The frame built by sending `len` bytes from the first pending one; a FIN is bundled when they reach the end. */
  function DataFrame(s: SendState, len: nat): (f: Sent)
    requires s.pending != []
  {
    var off := s.pending[0].start;
    Sent(off, off + len, if off + len == s.finalSize && s.appError == UINT64_MAX then Fin else NoMarker)
  }

  /** The state after a STREAM frame was sent. `wroteAll` says that there is nothing more to send. */
  function AfterSend(s: SendState, f: Sent, wroteAll: bool): (r: SendState)
  {
    var size := Max(s.sizeInflight, f.end);
    var pending := Difference(s.pending, f.start, f.end);
    s.(sizeInflight := size,
       pending := if wroteAll then Difference(pending, size, UINT64_MAX) else pending,
       eos := if f.marker == Fin then InFlight else s.eos)
  }

  /** The frame carrying a FIN alone, or a reset. */
  function MarkerFrame(s: SendState): (f: Sent)
  {
    Sent(s.finalSize, s.finalSize, MarkerOf(s))
  }

  // ----- what the operations do, offset by offset -----

  ghost predicate ShapeOk(s: SendState)
  {
    Anchored(s.acked) && Canonical(s.pending) && s.sizeInflight <= s.finalSize <= UINT64_MAX
  }

  /** Everything from the bytes sent so far up to the end becomes pending, unless the last pending range has the end
      already. */
  lemma ActivateDoes(s: SendState)
    requires ShapeOk(s)
    ensures var r := Activate(s);
            && r == s.(pending := r.pending) && Canonical(r.pending)
            && (s.pending != [] && s.pending[|s.pending| - 1].end == s.finalSize ==> r.pending == s.pending)
            && (s.pending == [] || s.pending[|s.pending| - 1].end != s.finalSize ==>
                  forall x: int :: Covers(r.pending, x) <==> Covers(s.pending, x) || s.sizeInflight <= x < s.finalSize)
  {
    hide Union, Separated, Covers;
    UnionSeparated(s.pending, s.sizeInflight, s.finalSize);
    UnionCovering(s.pending, s.sizeInflight, s.finalSize);
  }

  /** Exactly what is unsent or was pending below the final size is pending. */
  lemma ShutdownDoes(s: SendState, finalSize: nat)
    requires ShapeOk(s) && s.sizeInflight <= finalSize <= UINT64_MAX
    ensures var r := Shutdown(s, finalSize);
            && r == s.(pending := r.pending, finalSize := finalSize) && Canonical(r.pending)
            && forall x: int :: Covers(r.pending, x) <==>
                 (Covers(s.pending, x) || s.sizeInflight <= x < finalSize) && !(finalSize <= x < UINT64_MAX)
  {
    hide Union, Difference, Separated, Covers;
    UnionSeparated(s.pending, s.sizeInflight, finalSize);
    UnionCovering(s.pending, s.sizeInflight, finalSize);
    DifferenceCovering(Union(s.pending, s.sizeInflight, finalSize), finalSize, UINT64_MAX);
  }

  /** The stream ends where it was to end, or else right after the bytes sent and the reliable ones; what is above the
      reliable size counts as acked, and none of it is pending. */
  lemma ResetDoes(s: SendState, appError: nat, reliableSize: nat)
    requires ShapeOk(s) && reliableSize <= ResetSize(s, reliableSize)
    ensures var r := ResetTo(s, appError, reliableSize);
            && r.appError == appError && r.reliableSize == reliableSize && r.eos == Unsent
            && r.sizeInflight == s.sizeInflight
            && r.finalSize == (if s.sizeInflight == s.finalSize then s.finalSize else Max(reliableSize, s.sizeInflight))
            && (forall x: int :: Covers(r.acked, x) <==> Covers(s.acked, x) || reliableSize <= x < r.finalSize)
            && (forall x: int :: Covers(r.pending, x) <==> Covers(s.pending, x) && !(reliableSize <= x < UINT64_MAX))
            && Anchored(r.acked) && Canonical(r.pending)
  {
    hide Union, Difference, Separated, Covers;
    var n := ResetSize(s, reliableSize);
    AnchoredUnion(s.acked, reliableSize, n);
    UnionCovering(s.acked, reliableSize, n);
    DifferenceCovering(s.pending, reliableSize, UINT64_MAX);
  }

  lemma AckedDoes(s: SendState, f: Sent)
    requires ShapeOk(s) && f.start <= f.end
    ensures var r := Acked(s, f);
            && r == s.(acked := r.acked, pending := r.pending, eos := r.eos) && Anchored(r.acked)
            && Canonical(r.pending)
            && (forall x: int :: Covers(r.acked, x) <==> Covers(s.acked, x) || f.start <= x < f.end)
            && (forall x: int :: Covers(r.pending, x) <==> Covers(s.pending, x) && !(f.start <= x < f.end))
            && (f.marker == NoMarker || f.marker != MarkerOf(s) ==> r.eos == s.eos)
            && (f.marker != NoMarker && f.marker == MarkerOf(s) ==> r.eos == Delivered)
            && BytesToShift(s, f) == r.acked[0].end - s.acked[0].end >= 0
  {
    hide Union, Difference, Separated, Covers;
    AnchoredUnion(s.acked, f.start, f.end);
    UnionCovering(s.acked, f.start, f.end);
    DifferenceCovering(s.pending, f.start, f.end);
    AnchoredHead(s.acked);
    AnchoredHead(Union(s.acked, f.start, f.end));
  }

  lemma LostDoes(s: SendState, f: Sent)
    requires ShapeOk(s)
    ensures var r := Lost(s, f);
            && r == s.(pending := r.pending, eos := r.eos) && Canonical(r.pending)
            && (forall x: int :: Covers(r.pending, x) <==>
                                 Covers(s.pending, x) || (f.start <= x < f.end && !Covers(s.acked, x)))
            && (r.eos != s.eos <==> s.eos == InFlight && f.marker != NoMarker && f.marker == MarkerOf(s))
            && (r.eos != s.eos ==> r.eos == Unsent)
  {
    hide Separated, Covers, AddMissing;
    AddMissingFacts(s.pending, s.acked, f.start, f.end);
  }

  /** What was sent is not pending any more, nor is, once all that was written is sent, anything beyond. */
  lemma SentDoes(s: SendState, f: Sent, wroteAll: bool)
    requires ShapeOk(s)
    ensures var r := AfterSend(s, f, wroteAll);
            && r == s.(sizeInflight := Max(s.sizeInflight, f.end), pending := r.pending, eos := r.eos)
            && Canonical(r.pending) && r.eos == (if f.marker == Fin then InFlight else s.eos)
            && forall x: int :: Covers(r.pending, x) <==>
                 && Covers(s.pending, x) && !(f.start <= x < f.end)
                 && !(wroteAll && Max(s.sizeInflight, f.end) <= x < UINT64_MAX)
  {
    hide Difference, Separated, Covers;
    DifferenceCovering(s.pending, f.start, f.end);
    DifferenceCovering(Difference(s.pending, f.start, f.end), Max(s.sizeInflight, f.end), UINT64_MAX);
  }

  /** What the stream ends with. */
  lemma MarkerIs(s: SendState)
    ensures MarkerOf(s) == NoMarker <==> s.finalSize == UINT64_MAX
    ensures MarkerOf(s) == Fin <==> s.finalSize != UINT64_MAX && s.appError == UINT64_MAX
    ensures MarkerOf(s) == Reset <==> s.finalSize != UINT64_MAX && s.appError != UINT64_MAX && s.reliableSize == 0
  {
  }
}
