/** The compact record of a sent ACK, and what the ack of that ACK takes from the queue of packet numbers to be acked
    (send_ack and do_on_ack_ack of lib/quicly.c). */
module AckRecords {
  import opened Basics
  import opened Ranges
  import opened RangeLists
  import opened SendStates

  const UINT8_MAX: nat := 255
  const SLOTS8: nat := 7
  const SLOTS64: nat := 4
  const MAX_ACK_BLOCKS: nat := 64

  /** A range that follows another at some distance; both fit a byte. */
  datatype Extra = Extra(gap: Byte, length: Byte)

  /** Up to eight ranges; `wide` when the length of the first needs 64 bits, which leaves room for fewer. */
  datatype Chunk = Chunk(start: nat, wide: bool, length: nat, additional: seq<Extra>)

  function Slots(wide: bool): (n: nat)
  {
    if wide then SLOTS64 else SLOTS8
  }

  ghost predicate ChunkOk(c: Chunk)
  {
    |c.additional| == Slots(c.wide) && (!c.wide ==> c.length <= UINT8_MAX)
  }

  /** The ranges of the additional slots, up to the one with a gap of zero. */
  function Tail(end: nat, xs: seq<Extra>): (rs: seq<Range>)
    decreases |xs|
  {
    if xs == [] || xs[0].gap == 0 then []
    else
      var r := Range(end + xs[0].gap, end + xs[0].gap + xs[0].length);
      [r] + Tail(r.end, xs[1..])
  }

  /** The ranges that a chunk stands for. */
  function Replay(c: Chunk): (rs: seq<Range>)
  {
    [Range(c.start, c.start + c.length)] + Tail(c.start + c.length, c.additional)
  }

  function ReplayAll(cs: seq<Chunk>): (rs: seq<Range>)
  {
    if cs == [] then [] else ReplayAll(cs[..|cs| - 1]) + Replay(cs[|cs| - 1])
  }

  // ----- recording -----

  /** The slots hold the ranges, none of which touches the one before it. */
  ghost predicate Holds(end: nat, xs: seq<Extra>, rs: seq<Range>)
  {
    Tail(end, xs) == rs && forall i :: 0 <= i < |xs| ==> xs[i].gap != 0
  }

  ghost function LastEnd(end: nat, rs: seq<Range>): (n: nat)
  {
    if rs == [] then end else rs[|rs| - 1].end
  }

  lemma {:induction false} HoldsOneMore(end: nat, xs: seq<Extra>, rs: seq<Range>, r: Range)
    requires Holds(end, xs, rs) && LastEnd(end, rs) < r.start <= r.end
    requires r.start - LastEnd(end, rs) <= 255 && r.end - r.start <= 255
    ensures Holds(end, xs + [Extra(r.start - LastEnd(end, rs), r.end - r.start)], rs + [r])
    decreases |xs|
  {
    var x := Extra(r.start - LastEnd(end, rs), r.end - r.start);
    if xs == [] {
      assert Tail(end, [x]) == [r] + Tail(r.end, []);
      assert rs + [r] == [r] && xs + [x] == [x];
    } else {
      var first := Range(end + xs[0].gap, end + xs[0].gap + xs[0].length);
      assert rs[1..] == Tail(first.end, xs[1..]);
      HoldsOneMore(first.end, xs[1..], rs[1..], r);
      assert (xs + [x])[1..] == xs[1..] + [x];
      assert rs + [r] == [first] + (rs[1..] + [r]);
    }
  }

  /** A list that is full, or followed by a gap of zero, ends where it should. */
  lemma {:induction false} Terminated(end: nat, xs: seq<Extra>, k: nat, rs: seq<Range>)
    requires k <= |xs| && Holds(end, xs[..k], rs) && (k == |xs| || xs[k].gap == 0)
    ensures Tail(end, xs) == rs
    decreases k
  {
    if k == 0 {
    } else {
      var first := Range(end + xs[0].gap, end + xs[0].gap + xs[0].length);
      assert xs[..k][0] == xs[0];
      assert xs[..k][1..] == xs[1..][..k - 1];
      assert rs[1..] == Tail(first.end, xs[1..][..k - 1]);
      Terminated(first.end, xs[1..], k - 1, rs[1..]);
    }
  }

  /** Saves all ranges of the queue. `scratch` is what the memory for the additional slots happens to hold. */
  method SaveInFlight(rs: seq<Range>, scratch: seq<Extra>) returns (cs: seq<Chunk>)
    requires Canonical(rs) && |scratch| == SLOTS8
    ensures ReplayAll(cs) == rs && forall i :: 0 <= i < |cs| ==> ChunkOk(cs[i])
  {
    cs := [];
    var i := 0;
    while i < |rs|
      invariant i <= |rs| && ReplayAll(cs) == rs[..i] && forall k :: 0 <= k < |cs| ==> ChunkOk(cs[k])
    {
      var c, next := SaveChunk(rs, i, scratch);
      assert (cs + [c])[..|cs|] == cs;
      assert rs[..next] == rs[..i] + rs[i..next];
      cs := cs + [c];
      i := next;
    }
    assert rs[..i] == rs;
  }

  /** Saves as many ranges from index `i` on as one chunk takes. */
  method SaveChunk(rs: seq<Range>, i: nat, scratch: seq<Extra>) returns (c: Chunk, next: nat)
    requires Canonical(rs) && i < |rs| && |scratch| == SLOTS8
    ensures i < next <= |rs| && ChunkOk(c) && Replay(c) == rs[i..next]
    ensures c.wide <==> rs[i].end - rs[i].start > 255
    ensures || next == |rs|
            || next - i == (if c.wide then 5 else 8)
            || (next - i < (if c.wide then 5 else 8)
                && (rs[next].start - rs[next - 1].end > 255 || rs[next].end - rs[next].start > 255))
  {
    hide Tail, Holds;
    var length := rs[i].end - rs[i].start;
    var wide := length > UINT8_MAX;
    var xs: seq<Extra>, k: nat := scratch[..Slots(wide)], 0;
    next := i + 1;
    ghost var end := rs[i].end;
    HoldsNone(end, xs);
    assert rs[i + 1..next] == [];
    while next < |rs| && k < |xs|
      invariant i < next <= |rs| && k == next - i - 1 <= |xs| == Slots(wide) && Holds(end, xs[..k], rs[i + 1..next])
      decreases |rs| - next
    {
      var gap := rs[next].start - rs[next - 1].end;
      var len := rs[next].end - rs[next].start;
      if gap > UINT8_MAX || len > UINT8_MAX {
        break;
      }
      SaveOne(rs, i, next, end, xs, k);
      xs := xs[k := Extra(gap, len)];
      k, next := k + 1, next + 1;
    }
    if k < |xs| {
      assert xs[k := Extra(0, xs[k].length)][..k] == xs[..k];
      xs := xs[k := Extra(0, xs[k].length)];
    }
    Terminated(end, xs, k, rs[i + 1..next]);
    c := Chunk(rs[i].start, wide, length, xs);
    assert rs[i..next] == [rs[i]] + rs[i + 1..next];
  }

  lemma HoldsNone(end: nat, xs: seq<Extra>)
    ensures Holds(end, xs[..0], [])
  {
  }

  lemma SaveOne(rs: seq<Range>, i: nat, next: nat, end: nat, xs: seq<Extra>, k: nat)
    requires Canonical(rs) && i < next < |rs| && k < |xs| && end == rs[i].end && Holds(end, xs[..k], rs[i + 1..next])
    requires rs[next].start - rs[next - 1].end <= 255 && rs[next].end - rs[next].start <= 255
    ensures var x := Extra(rs[next].start - rs[next - 1].end, rs[next].end - rs[next].start);
            Holds(end, xs[k := x][..k + 1], rs[i + 1..next + 1])
  {
    hide Tail, Holds;
    var done, r := rs[i + 1..next], rs[next];
    assert LastEnd(end, done) == rs[next - 1].end;
    HoldsOneMore(end, xs[..k], done, r);
    var x := Extra(r.start - rs[next - 1].end, r.end - r.start);
    assert xs[k := x][..k + 1] == xs[..k] + [x];
    assert rs[i + 1..next + 1] == done + [r];
  }

  // ----- replaying -----

  /** The last `n` ranges of a list. */
  function Latest(rs: seq<Range>, n: nat): (r: seq<Range>)
  {
    if |rs| <= n then rs else rs[|rs| - n..]
  }

  lemma {:induction false} MinusAllConcat(q: seq<Range>, a: seq<Range>, b: seq<Range>)
    ensures MinusAll(q, a + b) == MinusAll(MinusAll(q, a), b)
    decreases |a|
  {
    if a == [] {
      assert a + b == b;
    } else {
      MinusAllConcat(Difference(q, a[0].start, a[0].end), a[1..], b);
      assert (a + b)[1..] == a[1..] + b;
    }
  }

  lemma MinusAllOne(q: seq<Range>, a: seq<Range>, r: Range)
    ensures MinusAll(q, a + [r]) == Difference(MinusAll(q, a), r.start, r.end)
  {
    MinusAllConcat(q, a, [r]);
    var d := Difference(MinusAll(q, a), r.start, r.end);
    assert MinusAll(MinusAll(q, a), [r]) == MinusAll(d, [r][1..]) == d;
  }

  class AckQueue {
    const queue: RangeList
    /** when the largest packet number was received; none if nothing is to be acked */
    var largestReceivedAt: Option<real>
    var unackedCount: nat

    constructor ()
      ensures queue.Valid() && queue.ranges == [] && fresh(queue) && largestReceivedAt == None && unackedCount == 0
    {
      queue := new RangeList();
      largestReceivedAt, unackedCount := None, 0;
    }

    /** The ack of a packet that carried an ACK: what the chunk stands for has reached the peer. */
    method OnAckAck(c: Chunk)
      requires queue.Valid() && Canonical(queue.ranges) && ChunkOk(c)
      modifies this, queue
      ensures queue.Valid() && Canonical(queue.ranges)
      ensures queue.ranges == Latest(MinusAll(old(queue.ranges), Replay(c)), MAX_ACK_BLOCKS)
      ensures if queue.ranges == [] then largestReceivedAt == None && unackedCount == 0
              else largestReceivedAt == old(largestReceivedAt) && unackedCount == old(unackedCount)
    {
      hide Replaying, Replay, MinusAll, Difference, Separated, Canonical, Covers, Latest;
      ghost var q := queue.ranges;
      var start: nat, end: nat := c.start, c.start + c.length;
      DifferenceCanonical(q, start, end);
      ReplayFirst(c, q);
      queue.Subtract(start, end);
      var i := 0;
      while i < |c.additional| && c.additional[i].gap != 0
        invariant i <= |c.additional| && queue.Valid() && Canonical(queue.ranges)
                  && Replaying(c, q, queue.ranges, end, i)
        invariant largestReceivedAt == old(largestReceivedAt) && unackedCount == old(unackedCount)
      {
        ReplayNext(c, q, queue.ranges, end, i);
        start := end + c.additional[i].gap;
        end := start + c.additional[i].length;
        DifferenceCanonical(queue.ranges, start, end);
        queue.Subtract(start, end);
        i := i + 1;
      }
      ReplayDone(c, q, queue.ranges, end, i);
      LatestNone(queue.ranges);
      if |queue.ranges| == 0 {
        largestReceivedAt, unackedCount := None, 0;
      } else {
        Cap();
      }
    }

    static lemma LatestNone(rs: seq<Range>)
      ensures Latest(rs, MAX_ACK_BLOCKS) == [] <==> rs == []
    {
    }

    /** Drops the oldest ranges when there are too many. */
    method Cap()
      requires queue.Valid() && Canonical(queue.ranges)
      modifies queue
      ensures queue.Valid() && Canonical(queue.ranges) && queue.ranges == Latest(old(queue.ranges), MAX_ACK_BLOCKS)
      ensures queue.ranges == if |old(queue.ranges)| <= 64 then old(queue.ranges)
                              else old(queue.ranges)[|old(queue.ranges)| - 64..]
    {
      hide Separated, Canonical;
      LatestCanonical(queue.ranges);
      if |queue.ranges| > MAX_ACK_BLOCKS {
        queue.DropByRangeIndices(0, |queue.ranges| - MAX_ACK_BLOCKS);
      }
    }

    /** The first range and those of the first `i` slots, the last of which ends at `end`, were taken from `q`. */
    static ghost predicate Replaying(c: Chunk, q: seq<Range>, now: seq<Range>, end: nat, i: nat)
    {
      i <= |c.additional|
      && exists done :: now == MinusAll(q, done) && done + Tail(end, c.additional[i..]) == Replay(c)
    }

    static lemma ReplayFirst(c: Chunk, q: seq<Range>)
      ensures Replaying(c, q, Difference(q, c.start, c.start + c.length), c.start + c.length, 0)
    {
      var r := Range(c.start, c.start + c.length);
      MinusFirst(q, r);
      assert c.additional[0..] == c.additional;
      assert [r] + Tail(r.end, c.additional[0..]) == Replay(c);
    }

    static lemma ReplayNext(c: Chunk, q: seq<Range>, now: seq<Range>, end: nat, i: nat)
      requires Replaying(c, q, now, end, i) && i < |c.additional| && c.additional[i].gap != 0
      ensures var r := Range(end + c.additional[i].gap, end + c.additional[i].gap + c.additional[i].length);
              Replaying(c, q, Difference(now, r.start, r.end), r.end, i + 1)
    {
      hide Tail, MinusAll, Difference, Replay;
      var done :| now == MinusAll(q, done) && done + Tail(end, c.additional[i..]) == Replay(c);
      var r := Range(end + c.additional[i].gap, end + c.additional[i].gap + c.additional[i].length);
      TailNext(c.additional[i..], end);
      assert c.additional[i..][1..] == c.additional[i + 1..];
      MinusAllOne(q, done, r);
      assert done + ([r] + Tail(r.end, c.additional[i + 1..])) == done + [r] + Tail(r.end, c.additional[i + 1..]);
    }

    static lemma ReplayDone(c: Chunk, q: seq<Range>, now: seq<Range>, end: nat, i: nat)
      requires Replaying(c, q, now, end, i) && (i == |c.additional| || c.additional[i].gap == 0)
      ensures now == MinusAll(q, Replay(c))
    {
      hide Tail, MinusAll, Replay;
      var done :| now == MinusAll(q, done) && done + Tail(end, c.additional[i..]) == Replay(c);
      TailDone(end, c.additional[i..]);
      assert done + [] == done;
    }

    static lemma MinusFirst(q: seq<Range>, r: Range)
      ensures MinusAll(q, [r]) == Difference(q, r.start, r.end)
    {
      assert [r] == [] + [r];
      MinusAllOne(q, [], r);
    }

    static lemma TailNext(xs: seq<Extra>, end: nat)
      requires xs != [] && xs[0].gap != 0
      ensures var r := Range(end + xs[0].gap, end + xs[0].gap + xs[0].length);
              Tail(end, xs) == [r] + Tail(r.end, xs[1..])
    {
    }

    static lemma TailDone(end: nat, xs: seq<Extra>)
      requires xs == [] || xs[0].gap == 0
      ensures Tail(end, xs) == []
    {
    }

    static lemma LatestCanonical(rs: seq<Range>)
      requires Canonical(rs)
      ensures Canonical(Latest(rs, MAX_ACK_BLOCKS)) && Separated(Latest(rs, MAX_ACK_BLOCKS)) && Separated(rs)
      ensures |rs| > MAX_ACK_BLOCKS ==> rs[..0] + rs[|rs| - MAX_ACK_BLOCKS..] == Latest(rs, MAX_ACK_BLOCKS)
    {
      Slices(rs, 0, if |rs| <= MAX_ACK_BLOCKS then 0 else |rs| - MAX_ACK_BLOCKS);
    }
  }

  // ----- the whole record -----

  /** The queue after all chunks of a record were acked. */
  function ApplyAll(q: seq<Range>, cs: seq<Chunk>): (r: seq<Range>)
  {
    if cs == [] then q else Latest(MinusAll(ApplyAll(q, cs[..|cs| - 1]), Replay(cs[|cs| - 1])), MAX_ACK_BLOCKS)
  }

  /** `part` has what `q` has at or above `cut`. */
  ghost predicate AtOrAbove(part: seq<Range>, q: seq<Range>, cut: nat)
  {
    forall x: int :: Covers(part, x) <==> Covers(q, x) && x >= cut
  }

  lemma LatestPart(q: seq<Range>) returns (cut: nat)
    requires Canonical(q)
    ensures Canonical(Latest(q, MAX_ACK_BLOCKS)) && AtOrAbove(Latest(q, MAX_ACK_BLOCKS), q, cut)
    ensures |q| <= MAX_ACK_BLOCKS ==> cut == 0 && Latest(q, MAX_ACK_BLOCKS) == q
  {
    cut := 0;
    if |q| > MAX_ACK_BLOCKS {
      var n := |q| - MAX_ACK_BLOCKS;
      Slices(q, n, n);
      cut := q[n].start;
      forall x: int ensures Covers(q[n..], x) <==> Covers(q, x) && x >= cut {
        SplitCovers(q, n, n, x);
        assert q[n..n] == [];
        SuffixAbove(q, n, x);
      }
    }
  }

  lemma SuffixAbove(q: seq<Range>, n: nat, x: int)
    requires Canonical(q) && n < |q|
    ensures Covers(q[n..], x) ==> x >= q[n].start
    ensures Covers(q[..n], x) ==> x < q[n].start
  {
    if Covers(q[n..], x) {
      var i :| 0 <= i < |q[n..]| && q[n..][i].start <= x < q[n..][i].end;
      assert q[n..][i] == q[n + i] && (i > 0 ==> q[n].end < q[n + i].start);
    }
    if Covers(q[..n], x) {
      var i :| 0 <= i < n && q[..n][i].start <= x < q[..n][i].end;
      assert q[i].end < q[n].start;
    }
  }

  /** The record round-trips: replaying all chunks takes from the queue exactly the ranges it had when the ACK was sent;
      beyond that, only the oldest entries can be missing, because of the cap. */
  lemma {:induction false} RecordTakesExactly(q: seq<Range>, cs: seq<Chunk>) returns (cut: nat)
    requires Canonical(q)
    ensures Canonical(ApplyAll(q, cs))
    ensures forall x: int :: Covers(ApplyAll(q, cs), x) <==> Covers(q, x) && !Covers(ReplayAll(cs), x) && x >= cut
    ensures |q| + |ReplayAll(cs)| <= MAX_ACK_BLOCKS ==> cut == 0 && |ApplyAll(q, cs)| <= |q| + |ReplayAll(cs)|
    decreases |cs|
  {
    hide Covers, MinusAll, Replay, Latest;
    cut := 0;
    if cs == [] {
      NothingReplayed();
      Nonnegative(q);
    } else {
      var n := |cs| - 1;
      var cut0 := RecordTakesExactly(q, cs[..n]);
      var p := ApplyAll(q, cs[..n]);
      MinusAllFacts(p, Replay(cs[n]));
      MinusAllSize(p, Replay(cs[n]));
      var cut1 := LatestPart(MinusAll(p, Replay(cs[n])));
      cut := Max(cut0, cut1);
      forall x: int ensures Covers(ReplayAll(cs), x) <==> Covers(ReplayAll(cs[..n]), x) || Covers(Replay(cs[n]), x) {
        ConcatCovers(ReplayAll(cs[..n]), Replay(cs[n]), x);
      }
    }
  }

  lemma {:induction false} DifferenceSize(q: seq<Range>, s: nat, e: nat)
    requires Canonical(q)
    ensures |Difference(q, s, e)| <= |q| + 1
    ensures q != [] && e <= q[0].start ==> |Difference(q, s, e)| <= |q|
  {
    if s < e && q != [] {
      DifferenceSize(q[1..], s, e);
    }
  }

  /** Each range taken away splits at most one range. */
  lemma {:induction false} MinusAllSize(q: seq<Range>, cuts: seq<Range>)
    requires Canonical(q)
    ensures |MinusAll(q, cuts)| <= |q| + |cuts|
    decreases |cuts|
  {
    if cuts != [] {
      DifferenceSize(q, cuts[0].start, cuts[0].end);
      DifferenceCanonical(q, cuts[0].start, cuts[0].end);
      MinusAllSize(Difference(q, cuts[0].start, cuts[0].end), cuts[1..]);
    }
  }

  lemma NothingReplayed()
    ensures forall x: int :: !Covers(ReplayAll([]), x)
  {
  }

  lemma Nonnegative(q: seq<Range>)
    ensures forall x: int :: Covers(q, x) ==> x >= 0
  {
  }

  /** What was saved for a queue, replayed: nothing of the queue at that time is left, and nothing that was added since
      is lost but for the oldest. */
  lemma SavedRoundTrip(sent: seq<Range>, now: seq<Range>, cs: seq<Chunk>) returns (cut: nat)
    requires Canonical(now) && ReplayAll(cs) == sent
    ensures forall x: int :: Covers(ApplyAll(now, cs), x) <==> Covers(now, x) && !Covers(sent, x) && x >= cut
    ensures |now| + |sent| <= MAX_ACK_BLOCKS ==> cut == 0
  {
    cut := RecordTakesExactly(now, cs);
  }
}
