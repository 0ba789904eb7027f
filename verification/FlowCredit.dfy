/** Connection-level flow control on the receiving side: what is charged and what is returned (apply_stream_frame,
    handle_reset_stream_frame, quicly_stream_sync_recvbuf and destroy_stream of lib/quicly.c). */
module FlowCredits {
  import opened Basics
  import opened Ranges
  import opened SendStates
  import opened RecvStates

  datatype Credit = Credit(consumed: int, shifted: int, committed: nat)

  datatype Frame =
    | StreamFrame(off: nat, len: nat, fin: bool)
    | ResetFrame(finalSize: nat, reliableSize: nat, error: nat)

  // ----- one stream -----

  /** What is known of a stream between frames. */
  ghost predicate WellFormed(r: RecvState)
  {
    && Anchored(r.received) && r.dataOff <= r.received[0].end && LastEnd(r.received) < UINT64_MAX
    && (r.eos != UINT64_MAX ==> r.dataOff <= r.eos)
    && (r.appError == UINT64_MAX && r.eos != UINT64_MAX ==> LastEnd(r.received) <= r.eos)
    && (r.appError != UINT64_MAX ==> r.eos != UINT64_MAX)
  }

  /** The credit that is tied up in a stream. */
  function Held(r: RecvState): (n: int)
  {
    if r.received == [] then 0 else BytesAllocated(r) - r.dataOff
  }

  /** What a STREAM frame that ends at `end` is charged. */
  function Charge(r: RecvState, end: nat): (n: nat)
    requires r.received != []
  {
    if r.appError == UINT64_MAX && BytesAllocated(r) < end then end - BytesAllocated(r) else 0
  }

  predicate Overdrawn(r: RecvState, c: Credit, end: nat)
    requires r.received != []
  {
    Charge(r, end) > 0 && c.consumed + Charge(r, end) > c.committed
  }

  /** Whether a frame within the limit of its stream is processed without error. */
  predicate Succeeds(r: RecvState, c: Credit, f: Frame)
    requires r.received != []
  {
    RecvComplete(r) ||
    match f
    case StreamFrame(off, len, fin) =>
      && off + len < UINT64_MAX && !Overdrawn(r, c, off + len) && !ContradictsEnd(r, off + len, fin)
    case ResetFrame(finalSize, reliableSize, error) =>
      && reliableSize <= finalSize < UINT64_MAX && error < UINT64_MAX
      && ResetError(r, finalSize, error) == NoError && c.consumed + BytesMissing(r, finalSize) <= c.committed
  }

  function StreamAfter(r: RecvState, f: Frame): (r': RecvState)
    requires r.received != []
  {
    if RecvComplete(r) then r else
    match f
    case StreamFrame(off, len, fin) => Updated(r, off, len, fin)
    case ResetFrame(_, reliableSize, error) => WasReset(r, reliableSize, error)
  }

  function CreditAfter(r: RecvState, c: Credit, f: Frame): (c': Credit)
    requires r.received != [] && StreamAfter(r, f).received != []
  {
    if RecvComplete(r) then c else
    match f
    case StreamFrame(off, len, _) => c.(consumed := c.consumed + Charge(r, off + len))
    case ResetFrame(finalSize, _, _) =>
      var before := if r.appError == UINT64_MAX then finalSize else BytesAllocated(r);
      c.(consumed := c.consumed + BytesMissing(r, finalSize),
         shifted := c.shifted + before - BytesAllocated(StreamAfter(r, f)))
  }

  /** An empty frame without FIN, ahead of everything received. */
  predicate EmptyAhead(r: RecvState, f: Frame)
    requires r.received != []
  {
    f.StreamFrame? && f.len == 0 && !f.fin && !RecvComplete(r) && r.eos == UINT64_MAX && LastEnd(r.received) < f.off
  }

  lemma UnionLast(rs: seq<Range>, s: nat, e: nat)
    requires Anchored(rs) && s < e
    ensures Anchored(Union(rs, s, e)) && LastEnd(Union(rs, s, e)) == Max(LastEnd(rs), e)
    ensures rs[0].end <= Union(rs, s, e)[0].end
  {
    hide Union, Separated, Covers;
    var u := Union(rs, s, e);
    AnchoredUnion(rs, s, e);
    UnionCovering(rs, s, e);
    TopCovered(rs);
    TopCovered(u);
    AnchoredHead(rs);
    AnchoredHead(u);
    assert Covers(u, e - 1);
    assert Covers(rs, LastEnd(rs) - 1) ==> Covers(u, LastEnd(rs) - 1);
  }

  /** The end of the last range is the least bound on what is covered. */
  lemma TopCovered(rs: seq<Range>)
    requires Anchored(rs)
    ensures LastEnd(rs) > 0 ==> Covers(rs, LastEnd(rs) - 1)
    ensures forall x: int :: Covers(rs, x) ==> x < LastEnd(rs)
    ensures rs[0].end <= LastEnd(rs)
  {
    var n := |rs| - 1;
    assert n > 0 ==> rs[n].start < rs[n].end;
    forall x: int | Covers(rs, x) ensures x < rs[n].end {
      var i :| 0 <= i < |rs| && rs[i].start <= x < rs[i].end;
      assert i < n ==> rs[i].end < rs[n].start;
    }
  }

  lemma StreamKept(r: RecvState, off: nat, len: nat, fin: bool)
    requires WellFormed(r) && off + len < UINT64_MAX && !ContradictsEnd(r, off + len, fin)
    ensures var r' := Updated(r, off, len, fin); var a := Accepted(r, off, len);
            && WellFormed(r') && r'.dataOff == r.dataOff
            && LastEnd(r'.received) == if a.start < a.end then Max(LastEnd(r.received), a.end) else LastEnd(r.received)
  {
    hide Union, Separated;
    var a := Accepted(r, off, len);
    TopCovered(r.received);
    if a.start < a.end {
      UnionLast(r.received, a.start, a.end);
    } else {
      UnionOfNothing(r.received, a.start);
    }
  }

  lemma ResetKept(r: RecvState, finalSize: nat, reliableSize: nat, error: nat)
    requires WellFormed(r) && !RecvComplete(r) && reliableSize <= finalSize < UINT64_MAX && error < UINT64_MAX
    requires ResetError(r, finalSize, error) == NoError
    ensures var r' := WasReset(r, reliableSize, error);
            && WellFormed(r') && r'.dataOff == r.dataOff
            && BytesAllocated(r') <= (if r.appError == UINT64_MAX then finalSize else BytesAllocated(r))
            && BytesMissing(r, finalSize) >= 0
  {
    hide Separated;
    TopCovered(r.received);
  }

  /** Every frame that succeeds charges the connection by exactly as much as the stream holds more than before, if and
      only if it is not an empty one ahead of everything received. No counter goes back. */
  lemma FrameBalanced(r: RecvState, c: Credit, f: Frame)
    requires WellFormed(r) && Succeeds(r, c, f)
    ensures StreamAfter(r, f).received != [] && WellFormed(StreamAfter(r, f))
    ensures var c', r' := CreditAfter(r, c, f), StreamAfter(r, f);
            && (c'.consumed - c'.shifted - (c.consumed - c.shifted) == Held(r') - Held(r) <==> !EmptyAhead(r, f))
            && c'.consumed >= c.consumed && c'.shifted >= c.shifted && c'.committed == c.committed
            && (c.consumed <= c.committed ==> c'.consumed <= c'.committed)
  {
    hide Union, Separated;
    TopCovered(r.received);
    if !RecvComplete(r) {
      match f
      case StreamFrame(off, len, fin) => StreamKept(r, off, len, fin);
      case ResetFrame(finalSize, reliableSize, error) => ResetKept(r, finalSize, reliableSize, error);
    }
  }

  /** The application reads what is available. */
  function Released(r: RecvState, n: nat): (k: int)
    requires r.received != []
  {
    var held := if BytesAllocated(r) > r.dataOff then BytesAllocated(r) - r.dataOff else 0;
    if held > n then n else held
  }

  lemma ShiftBalanced(r: RecvState, n: nat)
    requires WellFormed(r) && n <= BytesAvailable(r)
    ensures var r' := r.(dataOff := r.dataOff + n);
            WellFormed(r') && Released(r, n) == n == Held(r) - Held(r')
  {
    TopCovered(r.received);
  }

  lemma HeldNat(r: RecvState)
    requires WellFormed(r)
    ensures Held(r) >= 0
  {
    TopCovered(r.received);
  }

  // ----- all streams of a connection -----

  datatype Conn = Conn(credit: Credit, streams: map<int, RecvState>)

  datatype Step =
    | Open(id: int)
    | Receive(id: int, f: Frame)
    | Shift(id: int, n: nat)
    | Destroy(id: int)

  ghost predicate StreamsWell(m: map<int, RecvState>)
  {
    forall id :: id in m ==> WellFormed(m[id])
  }

  /** The credit that is tied up in all live streams. */
  ghost function Total(m: map<int, RecvState>): (n: int)
    decreases |m|
  {
    if forall id :: id !in m then 0
    else
      var id :| id in m;
      Held(m[id]) + Total(m - {id})
  }

  lemma {:induction false} TotalSplit(m: map<int, RecvState>, id: int)
    requires id in m
    ensures Total(m) == Held(m[id]) + Total(m - {id})
    decreases |m|
  {
    hide Held;
    var first :| first in m && Total(m) == Held(m[first]) + Total(m - {first});
    if first != id {
      TotalSplit(m - {first}, id);
      TotalSplit(m - {id}, first);
      assert m - {first} - {id} == m - {id} - {first};
    }
  }

  lemma TotalUpdate(m: map<int, RecvState>, id: int, r: RecvState)
    ensures StreamsWell(m) && WellFormed(r) ==> StreamsWell(m[id := r])
    ensures Total(m[id := r]) == Total(m) + Held(r) - (if id in m then Held(m[id]) else 0)
  {
    hide Held, Total;
    TotalSplit(m[id := r], id);
    assert m[id := r] - {id} == m - {id};
    if id in m {
      TotalSplit(m, id);
    } else {
      assert m - {id} == m;
    }
  }

  ghost predicate Enabled(k: Conn, step: Step)
  {
    match step
    case Open(id) => id !in k.streams
    case Receive(id, f) => id in k.streams && k.streams[id].received != [] && Succeeds(k.streams[id], k.credit, f)
                           && StreamAfter(k.streams[id], f).received != []
    case Shift(id, n) => id in k.streams && k.streams[id].received != [] && n <= BytesAvailable(k.streams[id])
    case Destroy(id) => id in k.streams && k.streams[id].received != []
  }

  ghost function Next(k: Conn, step: Step): (k': Conn)
    requires Enabled(k, step)
  {
    match step
    case Open(id) => k.(streams := k.streams[id := RecvInit()])
    case Receive(id, f) =>
      var r := k.streams[id];
      Conn(CreditAfter(r, k.credit, f), k.streams[id := StreamAfter(r, f)])
    case Shift(id, n) =>
      var r := k.streams[id];
      Conn(k.credit.(shifted := k.credit.shifted + Released(r, n)), k.streams[id := r.(dataOff := r.dataOff + n)])
    case Destroy(id) =>
      Conn(k.credit.(shifted := k.credit.shifted + Held(k.streams[id])), k.streams - {id})
  }

  /** Whether a step is an empty frame ahead of everything received on its stream. */
  ghost predicate Overcharges(k: Conn, step: Step)
    requires Enabled(k, step)
  {
    step.Receive? && EmptyAhead(k.streams[step.id], step.f)
  }

  ghost predicate Conserved(k: Conn)
  {
    && StreamsWell(k.streams) && k.credit.consumed - k.credit.shifted == Total(k.streams)
    && k.credit.consumed <= k.credit.committed
  }

  lemma StepConserves(k: Conn, step: Step)
    requires Conserved(k) && Enabled(k, step)
    ensures Conserved(Next(k, step)) <==> !Overcharges(k, step)
  {
    hide Total, WellFormed, EmptyAhead, Succeeds, StreamAfter, CreditAfter;
    match step
    case Open(id) =>
      NewWellFormed();
      TotalUpdate(k.streams, id, RecvInit());
    case Receive(id, f) =>
      FrameBalanced(k.streams[id], k.credit, f);
      TotalUpdate(k.streams, id, StreamAfter(k.streams[id], f));
    case Shift(id, n) =>
      var r := k.streams[id];
      assert WellFormed(r);
      ShiftBalanced(r, n);
      TotalUpdate(k.streams, id, r.(dataOff := r.dataOff + n));
    case Destroy(id) =>
      TotalSplit(k.streams, id);
  }

  lemma NewWellFormed()
    ensures WellFormed(RecvInit()) && Held(RecvInit()) == 0
  {
  }

  ghost predicate Run(trace: seq<Conn>, steps: seq<Step>, committed: nat)
  {
    && |trace| == |steps| + 1 && trace[0] == Conn(Credit(0, 0, committed), map[])
    && forall k :: 0 <= k < |steps| ==> Enabled(trace[k], steps[k]) && trace[k + 1] == Next(trace[k], steps[k])
  }

  /** Credit is conserved: what was charged and not returned is what the live streams hold, across FIN, first and
      repeated resets, late data, reading and destruction; no more is ever charged than was granted. */
  lemma {:induction false} CreditConserved(trace: seq<Conn>, steps: seq<Step>, committed: nat, k: nat)
    requires Run(trace, steps, committed) && k < |trace|
    requires forall i :: 0 <= i < k ==> !Overcharges(trace[i], steps[i])
    ensures Conserved(trace[k])
    ensures trace[k].streams == map[] ==> trace[k].credit.consumed == trace[k].credit.shifted
  {
    if k > 0 {
      CreditConserved(trace, steps, committed, k - 1);
      StepConserves(trace[k - 1], steps[k - 1]);
    }
  }

  /** The first empty frame ahead of the data breaks the balance: the credit it is charged is never returned. */
  lemma FirstOverchargeLeaks(trace: seq<Conn>, steps: seq<Step>, committed: nat, k: nat)
    requires Run(trace, steps, committed) && k < |steps| && Overcharges(trace[k], steps[k])
    requires forall i :: 0 <= i < k ==> !Overcharges(trace[i], steps[i])
    ensures !Conserved(trace[k + 1])
  {
    CreditConserved(trace, steps, committed, k);
    StepConserves(trace[k], steps[k]);
  }

  lemma OverchargeHappens()
    ensures var steps := [Open(0), Receive(0, StreamFrame(5, 0, false)), Destroy(0)];
            exists trace: seq<Conn> :: Run(trace, steps, 100) && trace[3].streams == map[]
                                       && trace[3].credit.consumed == 5 && trace[3].credit.shifted == 0
  {
    var k0 := Conn(Credit(0, 0, 100), map[]);
    var k1 := Next(k0, Open(0));
    var f := StreamFrame(5, 0, false);
    NewWellFormed();
    assert k1.streams[0] == RecvInit();
    UnionOfNothing([Range(0, 0)], 5);
    assert StreamAfter(RecvInit(), f) == RecvInit();
    var k2 := Next(k1, Receive(0, f));
    assert k2.streams[0] == RecvInit() && k2.credit == Credit(5, 0, 100);
    var k3 := Next(k2, Destroy(0));
    var trace, steps := [k0, k1, k2, k3], [Open(0), Receive(0, f), Destroy(0)];
    assert k3.credit == Credit(5, 0, 100) && k3.streams == map[];
    assert Run(trace, steps, 100) && trace[3] == k3;
  }
}
