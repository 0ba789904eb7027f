/** Encoding and decoding ACK frames (lib/frame.c; section 19.3 of RFC 9000). */
module AckFrames {
  import opened Basics
  import opened Ranges
  import opened Varints

  const ACK: Byte := 2
  const ACK_ECN: Byte := 3
  const MAX_ACK_BLOCKS: nat := 64
  const ACK_MAX_GAPS: nat := 256

  /** `lengths[0]` is the block that ends with `largest`; the others follow downwards, `gaps` in between. */
  datatype AckFrame = AckFrame(largest: nat, smallest: nat, delay: nat, gaps: seq<nat>, lengths: seq<nat>,
                               ecn: seq<nat>)

  // ----- what a frame describes -----

  /** The blocks in ascending order, the lowest one starting at `s`. */
  function RangesFrom(s: nat, gaps: seq<nat>, lengths: seq<nat>): (rs: seq<Range>)
    requires |lengths| == |gaps| + 1
    decreases |gaps|
  {
    var n := |gaps|;
    if n == 0 then [Range(s, s + lengths[0])]
    else [Range(s, s + lengths[n])] + RangesFrom(s + lengths[n] + gaps[n - 1], gaps[..n - 1], lengths[..n])
  }

  predicate Positive(xs: seq<nat>)
  {
    forall i :: 0 <= i < |xs| ==> xs[i] > 0
  }

  lemma {:induction false} RangesFromFacts(s: nat, gaps: seq<nat>, lengths: seq<nat>)
    requires |lengths| == |gaps| + 1 && Positive(gaps) && Positive(lengths)
    ensures var rs := RangesFrom(s, gaps, lengths); rs != [] && rs[0].start == s && Canonical(rs) && |rs| == |lengths|
    decreases |gaps|
  {
    var n := |gaps|;
    if n > 0 {
      var t := s + lengths[n] + gaps[n - 1];
      RangesFromFacts(t, gaps[..n - 1], lengths[..n]);
      var tail := RangesFrom(t, gaps[..n - 1], lengths[..n]);
      PutBefore(Range(s, s + lengths[n]), tail);
    }
  }

  lemma PutBefore(r: Range, rs: seq<Range>)
    requires r.start < r.end && Canonical(rs) && rs != [] && r.end < rs[0].start
    ensures Canonical([r] + rs)
  {
    var u := [r] + rs;
    forall i, j | 0 <= i < j < |u| ensures u[i].end < u[j].start {
      assert i == 0 && j > 1 ==> rs[0].end < rs[j - 1].start;
    }
  }

  ghost predicate Describes(f: AckFrame)
  {
    && |f.lengths| == |f.gaps| + 1 && |f.gaps| <= ACK_MAX_GAPS && Positive(f.gaps) && Positive(f.lengths)
    && var rs := RangesFrom(f.smallest, f.gaps, f.lengths); rs[|rs| - 1].end == f.largest + 1
  }

  /** The blocks of a frame are disjoint, do not touch, and lie within [0, largest]. */
  lemma BlocksWithin(f: AckFrame)
    requires Describes(f)
    ensures var rs := RangesFrom(f.smallest, f.gaps, f.lengths);
            && rs != [] && Canonical(rs) && rs[0].start == f.smallest <= f.largest
            && forall x: int :: Covers(rs, x) ==> f.smallest <= x <= f.largest
  {
    RangesFromFacts(f.smallest, f.gaps, f.lengths);
    var rs := RangesFrom(f.smallest, f.gaps, f.lengths);
    var n := |rs| - 1;
    forall x: int | Covers(rs, x) ensures rs[0].start <= x < rs[n].end {
      var i :| 0 <= i < |rs| && rs[i].start <= x < rs[i].end;
      assert i < n ==> rs[i].end < rs[n].start;
      assert i > 0 ==> rs[0].end < rs[i].start;
    }
    assert rs[0].start < rs[n].end;
  }

  // ----- encoding -----

  /** The gaps and blocks below the block `k`. */
  function GapBytes(rs: seq<Range>, k: nat): (s: seq<Byte>)
    requires k < |rs| && Ordered(rs)
    decreases k
  {
    if k == 0 then []
    else EncodeV(rs[k].start - rs[k - 1].end - 1) + EncodeV(rs[k - 1].end - rs[k - 1].start - 1) + GapBytes(rs, k - 1)
  }

  predicate Ordered(rs: seq<Range>)
  {
    && (forall i :: 0 <= i < |rs| ==> rs[i].start < rs[i].end)
    && (forall i :: 0 < i < |rs| ==> rs[i - 1].end < rs[i].start)
  }

  predicate HasEcn(ecn: seq<nat>)
    requires |ecn| == 3
  {
    ecn[0] != 0 || ecn[1] != 0 || ecn[2] != 0
  }

  function EcnBytes(ecn: seq<nat>): (s: seq<Byte>)
    requires |ecn| == 3
  {
    if HasEcn(ecn) then EncodeV(ecn[0]) + EncodeV(ecn[1]) + EncodeV(ecn[2]) else []
  }

  /** The frame but for its type. */
  function AckBytes(rs: seq<Range>, ecn: seq<nat>, delay: nat): (s: seq<Byte>)
    requires rs != [] && Ordered(rs) && |ecn| == 3
  {
    var n := |rs| - 1;
    Joined(EncodeV(rs[n].end - 1), EncodeV(delay), [n % 256], EncodeV(rs[n].end - rs[n].start - 1), GapBytes(rs, n),
           EcnBytes(ecn))
  }

  function Joined(a: seq<Byte>, b: seq<Byte>, c: seq<Byte>, d: seq<Byte>, e: seq<Byte>, f: seq<Byte>): (s: seq<Byte>)
  {
    a + b + c + d + e + f
  }

  function AckType(ecn: seq<nat>): (t: Byte)
    requires |ecn| == 3
  {
    if HasEcn(ecn) then ACK_ECN else ACK
  }

  /** Writes an ACK frame into `capacity` bytes, or gives up. It gives up exactly when there is no room for the frame,
      or for eight bytes where the last block goes. */
  method EncodeAck(rs: seq<Range>, ecn: seq<nat>, delay: nat, capacity: nat) returns (r: Option<seq<Byte>>)
    requires rs != [] && Ordered(rs) && |ecn| == 3
    ensures r.Some? ==> r.value == [AckType(ecn)] + AckBytes(rs, ecn, delay)
    ensures r.Some? ==> r.value[0] == if ecn == [0, 0, 0] then 2 else 3
    ensures r.None? <==> || capacity < 1 + |AckBytes(rs, ecn, delay)|
                         || capacity + |EncodeV(rs[0].end - rs[0].start - 1)| + |EcnBytes(ecn)|
                            < 1 + |AckBytes(rs, ecn, delay)| + 8
    ensures |EncodeV(rs[|rs| - 1].end - 1)| + |EncodeV(delay)| + 2 <= capacity && r.Some? ==> |r.value| <= capacity
  {
    hide GapBytes, EncodeV, EcnBytes;
    var i: nat := |rs| - 1;
    var dst: seq<Byte> := [AckType(ecn)] + EncodeV(rs[i].end - 1) + EncodeV(delay) + [i % 256];
    ghost var n: nat, whole: seq<Byte> := i, [AckType(ecn)] + AckBytes(rs, ecn, delay);
    ghost var head: seq<Byte> := dst;
    EncodedLength(rs[i].end - rs[i].start - 1);
    EncodeStart(AckType(ecn), EncodeV(rs[n].end - 1), EncodeV(delay), i % 256, EncodeV(rs[n].end - rs[n].start - 1),
                GapBytes(rs, n), EcnBytes(ecn));
    while true
      invariant i <= n && Written(dst, EncodeV(rs[i].end - rs[i].start - 1), GapBytes(rs, i), EcnBytes(ecn), whole)
      invariant dst == head || |dst| <= capacity
      decreases i
    {
      EncodedLength(rs[i].end - rs[i].start - 1);
      LastBlockWithin(rs, i);
      WrittenLength(dst, EncodeV(rs[i].end - rs[i].start - 1), GapBytes(rs, i), EcnBytes(ecn), whole);
      if capacity < |dst| + 8 {
        return None;
      }
      ghost var block := EncodeV(rs[i].end - rs[i].start - 1);
      ghost var before: seq<Byte> := dst;
      dst := dst + EncodeV(rs[i].end - rs[i].start - 1);
      if i == 0 {
        NoGaps(rs);
        WrittenBlock(before, block, GapBytes(rs, 0), EcnBytes(ecn), whole);
        break;
      }
      EncodedLength(rs[i].start - rs[i - 1].end - 1);
      EncodedLength(rs[i - 1].end - rs[i - 1].start - 1);
      GapsAt(rs, i);
      WrittenGap(before, block, EncodeV(rs[i].start - rs[i - 1].end - 1), EncodeV(rs[i - 1].end - rs[i - 1].start - 1),
                 GapBytes(rs, i - 1), EcnBytes(ecn), whole);
      if capacity < |dst| + 8 {
        return None;
      }
      dst := dst + EncodeV(rs[i].start - rs[i - 1].end - 1);
      i := i - 1;
    }
    if HasEcn(ecn) {
      var buf := EncodeV(ecn[0]) + EncodeV(ecn[1]) + EncodeV(ecn[2]);
      EcnIs(ecn);
      if capacity < |dst| + |buf| {
        return None;
      }
      dst := dst + buf;
    } else {
      NoEcn(ecn);
    }
    return Some(dst);
  }

  /** The block written last is among those that remain to be written. */
  lemma {:induction false} LastBlockWithin(rs: seq<Range>, k: nat)
    requires k < |rs| && Ordered(rs)
    ensures k > 0 ==> |GapBytes(rs, k)| >= |EncodeV(rs[0].end - rs[0].start - 1)|
    decreases k
  {
    if k > 0 {
      GapsAt(rs, k);
      LastBlockWithin(rs, k - 1);
    }
  }

  lemma WrittenLength(dst: seq<Byte>, block: seq<Byte>, gaps: seq<Byte>, ecn: seq<Byte>, whole: seq<Byte>)
    requires Written(dst, block, gaps, ecn, whole)
    ensures |dst| + |block| + |gaps| + |ecn| == |whole|
  {
  }

  lemma EncodedLength(v: nat)
    ensures 1 <= |EncodeV(v)| <= 8
  {
  }

  lemma NoGaps(rs: seq<Range>)
    requires rs != [] && Ordered(rs)
    ensures GapBytes(rs, 0) == []
  {
  }

  lemma GapsAt(rs: seq<Range>, k: nat)
    requires 0 < k < |rs| && Ordered(rs)
    ensures GapBytes(rs, k)
            == EncodeV(rs[k].start - rs[k - 1].end - 1) + EncodeV(rs[k - 1].end - rs[k - 1].start - 1)
                + GapBytes(rs, k - 1)
  {
  }

  lemma EcnIs(ecn: seq<nat>)
    requires |ecn| == 3 && HasEcn(ecn)
    ensures EcnBytes(ecn) == EncodeV(ecn[0]) + EncodeV(ecn[1]) + EncodeV(ecn[2])
  {
  }

  lemma NoEcn(ecn: seq<nat>)
    requires |ecn| == 3 && !HasEcn(ecn)
    ensures EcnBytes(ecn) == []
  {
  }

  /** What was written so far, followed by what remains to be written, is the frame. */
  ghost predicate Written(dst: seq<Byte>, block: seq<Byte>, gaps: seq<Byte>, ecn: seq<Byte>, whole: seq<Byte>)
  {
    dst + (block + gaps + ecn) == whole
  }

  lemma EncodeStart(t: Byte, a: seq<Byte>, b: seq<Byte>, n: Byte, block: seq<Byte>, gaps: seq<Byte>, ecn: seq<Byte>)
    ensures Written([t] + a + b + [n], block, gaps, ecn, [t] + Joined(a, b, [n], block, gaps, ecn))
  {
    assert [t] + a + b + [n] + (block + gaps + ecn) == [t] + Joined(a, b, [n], block, gaps, ecn);
  }

  lemma WrittenBlock(dst: seq<Byte>, block: seq<Byte>, gaps: seq<Byte>, ecn: seq<Byte>, whole: seq<Byte>)
    requires Written(dst, block, gaps, ecn, whole) && gaps == []
    ensures dst + block + ecn == whole
  {
    assert block + gaps + ecn == block + ecn;
  }

  lemma WrittenGap(dst: seq<Byte>, block: seq<Byte>, gap: seq<Byte>, next: seq<Byte>, gaps: seq<Byte>, ecn: seq<Byte>,
                   whole: seq<Byte>)
    requires Written(dst, block, gap + next + gaps, ecn, whole)
    ensures Written(dst + block + gap, next, gaps, ecn, whole)
    ensures |dst + block + gap| + |next| <= |whole|
  {
    assert dst + (block + (gap + next + gaps) + ecn) == dst + block + gap + (next + gaps + ecn);
  }

  // ----- decoding -----

  /** A frame with one more gap and block at its lower end. */
  function Extend(f: AckFrame, gap: nat, ack: nat): (g: AckFrame)
    requires gap + ack + 2 <= f.smallest
  {
    f.(smallest := f.smallest - (gap + ack + 2), gaps := f.gaps + [gap + 1], lengths := f.lengths + [ack + 1])
  }

  /** Reads `n` pairs of a gap and a block; those beyond the greatest number kept are skipped. */
  function DecodeGaps(src: seq<Byte>, n: nat, f: AckFrame): (r: Option<(AckFrame, seq<Byte>)>)
    decreases n
  {
    if n == 0 then Some((f, src))
    else
      var g := DecodeV(src);
      if g.None? then None
      else
        var a := DecodeV(g.value.1);
        if a.None? then None
        else if |f.gaps| < ACK_MAX_GAPS then
          if f.smallest < g.value.0 + a.value.0 + 2 then None
          else DecodeGaps(a.value.1, n - 1, Extend(f, g.value.0, a.value.0))
        else DecodeGaps(a.value.1, n - 1, f)
  }

  function DecodeEcn(src: seq<Byte>, f: AckFrame): (r: Option<(AckFrame, seq<Byte>)>)
  {
    var a := DecodeV(src);
    if a.None? then None
    else
      var b := DecodeV(a.value.1);
      if b.None? then None
      else
        var c := DecodeV(b.value.1);
        if c.None? then None else Some((f.(ecn := [a.value.0, b.value.0, c.value.0]), c.value.1))
  }

  /** Reads the frame that follows its type, and what comes after it; none if it is malformed. */
  function DecodeAck(src: seq<Byte>, isEcn: bool): (r: Option<(AckFrame, seq<Byte>)>)
  {
    var l := DecodeV(src);
    if l.None? then None
    else
      var d := DecodeV(l.value.1);
      if d.None? then None
      else
        var n := DecodeV(d.value.1);
        if n.None? then None
        else
          var a := DecodeV(n.value.1);
          if a.None? || l.value.0 < a.value.0 then None
          else
            var f := AckFrame(l.value.0, l.value.0 - a.value.0, d.value.0, [], [a.value.0 + 1], [0, 0, 0]);
            var g := DecodeGaps(a.value.1, n.value.0, f);
            if g.None? then None else if isEcn then DecodeEcn(g.value.1, g.value.0) else g
  }

  method Decode(src0: seq<Byte>, isEcn: bool) returns (r: Option<(AckFrame, seq<Byte>)>)
    ensures r == DecodeAck(src0, isEcn)
  {
    hide DecodeV, Extend;
    var l := DecodeV(src0);
    if l.None? {
      return None;
    }
    var d := DecodeV(l.value.1);
    if d.None? {
      return None;
    }
    var n := DecodeV(d.value.1);
    if n.None? {
      return None;
    }
    var a := DecodeV(n.value.1);
    if a.None? || l.value.0 < a.value.0 {
      return None;
    }
    var f := AckFrame(l.value.0, l.value.0 - a.value.0, d.value.0, [], [a.value.0 + 1], [0, 0, 0]);
    var src, i := a.value.1, 0;
    while i != n.value.0
      invariant 0 <= i <= n.value.0 && (|f.gaps| < ACK_MAX_GAPS <==> i < ACK_MAX_GAPS)
      invariant i <= ACK_MAX_GAPS ==> |f.gaps| == i
      invariant DecodeGaps(src, n.value.0 - i, f)
                == DecodeGaps(a.value.1, n.value.0, AckFrame(l.value.0, l.value.0 - a.value.0, d.value.0, [],
                                                             [a.value.0 + 1], [0, 0, 0]))
    {
      var gap := DecodeV(src);
      if gap.None? {
        return None;
      }
      var ack := DecodeV(gap.value.1);
      if ack.None? {
        return None;
      }
      if i < ACK_MAX_GAPS {
        if f.smallest < gap.value.0 + ack.value.0 + 2 {
          return None;
        }
        OneMore(f, gap.value.0, ack.value.0);
        f := Extend(f, gap.value.0, ack.value.0);
      }
      src := ack.value.1;
      i := i + 1;
    }
    r := Some((f, src));
    if isEcn {
      r := DecodeEcn(src, f);
    }
  }

  lemma OneMore(f: AckFrame, gap: nat, ack: nat)
    requires gap + ack + 2 <= f.smallest
    ensures |Extend(f, gap, ack).gaps| == |f.gaps| + 1
  {
  }

  lemma ExtendDescribes(f: AckFrame, gap: nat, ack: nat)
    requires Describes(f) && gap + ack + 2 <= f.smallest && |f.gaps| < ACK_MAX_GAPS
    ensures var g := Extend(f, gap, ack);
            && Describes(g)
            && RangesFrom(g.smallest, g.gaps, g.lengths)
               == [Range(g.smallest, g.smallest + ack + 1)] + RangesFrom(f.smallest, f.gaps, f.lengths)
  {
    var g := Extend(f, gap, ack);
    assert g.gaps[..|f.gaps|] == f.gaps && g.lengths[..|f.lengths|] == f.lengths;
    assert RangesFrom(g.smallest, g.gaps, g.lengths)
           == [Range(g.smallest, g.smallest + ack + 1)] + RangesFrom(f.smallest, f.gaps, f.lengths);
  }

  lemma {:induction false} GapsDescribe(src: seq<Byte>, n: nat, f: AckFrame)
    requires Describes(f)
    ensures var r := DecodeGaps(src, n, f); r.Some? ==>
              Describes(r.value.0) && r.value.0.largest == f.largest && r.value.0.ecn == f.ecn
    decreases n
  {
    hide DecodeV, Describes, Extend;
    if n > 0 {
      var g := DecodeV(src);
      if g.Some? {
        var a := DecodeV(g.value.1);
        if a.Some? {
          if |f.gaps| < ACK_MAX_GAPS {
            if f.smallest >= g.value.0 + a.value.0 + 2 {
              ExtendDescribes(f, g.value.0, a.value.0);
              ExtendKeeps(f, g.value.0, a.value.0);
              GapsDescribe(a.value.1, n - 1, Extend(f, g.value.0, a.value.0));
            }
          } else {
            GapsDescribe(a.value.1, n - 1, f);
          }
        }
      }
    }
  }

  lemma ExtendKeeps(f: AckFrame, gap: nat, ack: nat)
    requires gap + ack + 2 <= f.smallest
    ensures Extend(f, gap, ack).largest == f.largest && Extend(f, gap, ack).ecn == f.ecn
            && Extend(f, gap, ack).delay == f.delay
    ensures Extend(f, gap, ack).smallest == f.smallest - (gap + ack + 2)
  {
  }

  /** Whatever bytes it is given, decoding fails or gives a frame that describes blocks as BlocksWithin says. */
  lemma DecodedDescribes(src: seq<Byte>, isEcn: bool)
    ensures DecodeAck(src, isEcn).Some? ==>
              Describes(DecodeAck(src, isEcn).value.0) && |DecodeAck(src, isEcn).value.0.ecn| == 3
  {
    hide DecodeV, Describes, DecodeGaps, DecodeEcn;
    if DecodeAck(src, isEcn).Some? {
      var l := DecodeV(src);
      var d := DecodeV(l.value.1);
      var n := DecodeV(d.value.1);
      var a := DecodeV(n.value.1);
      var f := AckFrame(l.value.0, l.value.0 - a.value.0, d.value.0, [], [a.value.0 + 1], [0, 0, 0]);
      OneBlock(f);
      GapsDescribe(a.value.1, n.value.0, f);
      var g := DecodeGaps(a.value.1, n.value.0, f);
      if isEcn {
        EcnDescribes(g.value.1, g.value.0);
      }
    }
  }

  lemma OneBlock(f: AckFrame)
    requires f.gaps == [] && |f.lengths| == 1 && f.lengths[0] > 0 && f.smallest + f.lengths[0] == f.largest + 1
    ensures Describes(f)
  {
  }

  lemma EcnDescribes(src: seq<Byte>, f: AckFrame)
    requires Describes(f)
    ensures var r := DecodeEcn(src, f); r.Some? ==> Describes(r.value.0) && |r.value.0.ecn| == 3
  {
  }

  // ----- the round trip -----

  ghost predicate Small(rs: seq<Range>)
  {
    forall i :: 0 <= i < |rs| ==> rs[i].end <= MAX_VALUE
  }

  lemma {:induction false} GapsRoundTrip(rs: seq<Range>, k: nat, f: AckFrame, rest: seq<Byte>)
    requires Ordered(rs) && Small(rs) && k < |rs| && |f.lengths| == |f.gaps| + 1 && |f.gaps| + k <= ACK_MAX_GAPS
    requires RangesFrom(f.smallest, f.gaps, f.lengths) == rs[k..] && f.smallest == rs[k].start && Describes(f)
    ensures var r := DecodeGaps(GapBytes(rs, k) + rest, k, f);
            && r.Some? && r.value.1 == rest && Describes(r.value.0)
            && RangesFrom(r.value.0.smallest, r.value.0.gaps, r.value.0.lengths) == rs
            && r.value.0.delay == f.delay && r.value.0.ecn == f.ecn && r.value.0.largest == f.largest
    decreases k
  {
    hide DecodeV, EncodeV, Describes, Extend, RangesFrom, GapBytes;
    if k == 0 {
      NoGaps(rs);
      assert [] + rest == rest && rs[0..] == rs;
    } else {
      var gap, ack := rs[k].start - rs[k - 1].end - 1, rs[k - 1].end - rs[k - 1].start - 1;
      var more := GapBytes(rs, k - 1);
      GapsAt(rs, k);
      ThreeParts(EncodeV(gap), EncodeV(ack), more, rest);
      VarintRoundTrip(gap, EncodeV(ack) + (more + rest));
      VarintRoundTrip(ack, more + rest);
      ExtendDescribes(f, gap, ack);
      ExtendKeeps(f, gap, ack);
      OneMore(f, gap, ack);
      SameLength(f, gap, ack);
      assert [rs[k - 1]] + rs[k..] == rs[k - 1..];
      GapsRoundTrip(rs, k - 1, Extend(f, gap, ack), rest);
    }
  }

  lemma SameLength(f: AckFrame, gap: nat, ack: nat)
    requires gap + ack + 2 <= f.smallest && |f.lengths| == |f.gaps| + 1
    ensures |Extend(f, gap, ack).lengths| == |Extend(f, gap, ack).gaps| + 1
  {
  }

  lemma ThreeParts(a: seq<Byte>, b: seq<Byte>, c: seq<Byte>, d: seq<Byte>)
    ensures (a + b + c) + d == a + (b + (c + d))
  {
  }

  lemma EcnRoundTrip(ecn: seq<nat>, f: AckFrame, rest: seq<Byte>)
    requires |ecn| == 3 && (forall i :: 0 <= i < 3 ==> ecn[i] <= MAX_VALUE) && HasEcn(ecn)
    ensures DecodeEcn(EcnBytes(ecn) + rest, f) == Some((f.(ecn := ecn), rest))
  {
    hide DecodeV, EncodeV;
    ThreeParts(EncodeV(ecn[0]), EncodeV(ecn[1]), EncodeV(ecn[2]), rest);
    VarintRoundTrip(ecn[0], EncodeV(ecn[1]) + (EncodeV(ecn[2]) + rest));
    VarintRoundTrip(ecn[1], EncodeV(ecn[2]) + rest);
    VarintRoundTrip(ecn[2], rest);
    assert ecn == [ecn[0], ecn[1], ecn[2]];
  }

  lemma SmallByte(n: nat, rest: seq<Byte>)
    requires n < 64
    ensures DecodeV([n] + rest) == Some((n, rest))
  {
    VarintRoundTrip(n, rest);
    assert BigEndian(n / 256, 0) == [];
    assert EncodeV(n) == [n];
  }

  lemma SixParts(a: seq<Byte>, b: seq<Byte>, c: seq<Byte>, d: seq<Byte>, e: seq<Byte>, f: seq<Byte>, g: seq<Byte>)
    ensures Joined(a, b, c, d, e, f) + g == a + (b + (c + (d + (e + (f + g)))))
  {
    Regroup(a + b + c + d + e, f, g);
    Regroup(a + b + c + d, e, f + g);
    Regroup(a + b + c, d, e + (f + g));
    Regroup(a + b, c, d + (e + (f + g)));
    Regroup(a, b, c + (d + (e + (f + g))));
  }

  lemma Regroup(a: seq<Byte>, b: seq<Byte>, c: seq<Byte>)
    ensures (a + b) + c == a + (b + c)
  {
  }

  /** Decoding what was encoded gives back the ranges, the delay and the ECN counts, whenever the number of blocks fits
      the byte that carries it. */
  lemma AckRoundTrip(rs: seq<Range>, ecn: seq<nat>, delay: nat, rest: seq<Byte>)
    requires rs != [] && Ordered(rs) && Small(rs) && |rs| <= MAX_ACK_BLOCKS && delay <= MAX_VALUE
    requires |ecn| == 3 && forall i :: 0 <= i < 3 ==> ecn[i] <= MAX_VALUE
    ensures var r := DecodeAck(AckBytes(rs, ecn, delay) + rest, AckType(ecn) == ACK_ECN);
            && r.Some? && r.value.1 == rest && |r.value.0.lengths| == |r.value.0.gaps| + 1
            && RangesFrom(r.value.0.smallest, r.value.0.gaps, r.value.0.lengths) == rs
            && r.value.0.delay == delay && r.value.0.ecn == ecn && r.value.0.largest == rs[|rs| - 1].end - 1
  {
    hide DecodeV, EncodeV, GapBytes, EcnBytes, DecodeGaps, DecodeEcn, DecodeAck, RangesFrom, Describes, AckBytes;
    var n := |rs| - 1;
    var top, ack := rs[n].end - 1, rs[n].end - rs[n].start - 1;
    var tail := EcnBytes(ecn) + rest;
    AckBytesParts(rs, ecn, delay, rest);
    var f := AckFrame(top, top - ack, delay, [], [ack + 1], [0, 0, 0]);
    HeadDecoded(top, delay, n, ack, GapBytes(rs, n) + tail, AckType(ecn) == ACK_ECN);
    assert rs[n..] == [rs[n]];
    OneBlock(f);
    OneRange(f);
    GapsRoundTrip(rs, n, f, tail);
    var g := DecodeGaps(GapBytes(rs, n) + tail, n, f).value.0;
    LengthsOf(g);
    if HasEcn(ecn) {
      EcnRoundTrip(ecn, g, rest);
    } else {
      NoEcn(ecn);
      assert tail == rest;
      assert ecn == [0, 0, 0];
    }
  }

  lemma AckBytesParts(rs: seq<Range>, ecn: seq<nat>, delay: nat, rest: seq<Byte>)
    requires rs != [] && Ordered(rs) && |ecn| == 3
    ensures var n := |rs| - 1;
            AckBytes(rs, ecn, delay) + rest
            == EncodeV(rs[n].end - 1) + (EncodeV(delay) + ([n % 256] + (EncodeV(rs[n].end - rs[n].start - 1)
               + (GapBytes(rs, n) + (EcnBytes(ecn) + rest)))))
  {
    hide EncodeV, GapBytes, EcnBytes, Joined;
    var n := |rs| - 1;
    SixParts(EncodeV(rs[n].end - 1), EncodeV(delay), [n % 256], EncodeV(rs[n].end - rs[n].start - 1), GapBytes(rs, n),
             EcnBytes(ecn), rest);
  }

  lemma LengthsOf(f: AckFrame)
    requires Describes(f)
    ensures |f.lengths| == |f.gaps| + 1
  {
  }

  lemma OneRange(f: AckFrame)
    requires f.gaps == [] && |f.lengths| == 1
    ensures RangesFrom(f.smallest, f.gaps, f.lengths) == [Range(f.smallest, f.smallest + f.lengths[0])]
  {
  }

  /** The fixed part of a frame, decoded. */
  lemma HeadDecoded(top: nat, delay: nat, n: nat, ack: nat, tail: seq<Byte>, isEcn: bool)
    requires ack <= top <= MAX_VALUE && delay <= MAX_VALUE && n < 64
    ensures var f := AckFrame(top, top - ack, delay, [], [ack + 1], [0, 0, 0]);
            var g := DecodeGaps(tail, n, f);
            DecodeAck(EncodeV(top) + (EncodeV(delay) + ([n % 256] + (EncodeV(ack) + tail))), isEcn)
            == if g.None? then None else if isEcn then DecodeEcn(g.value.1, g.value.0) else g
  {
    hide DecodeV, EncodeV, DecodeGaps, DecodeEcn;
    VarintRoundTrip(top, EncodeV(delay) + ([n % 256] + (EncodeV(ack) + tail)));
    VarintRoundTrip(delay, [n % 256] + (EncodeV(ack) + tail));
    SmallByte(n, EncodeV(ack) + tail);
    VarintRoundTrip(ack, tail);
  }

  // ----- the wire format -----

  /** The bytes of a sequence of gaps and lengths. */
  function Wire(pairs: seq<(nat, nat)>): (s: seq<Byte>)
  {
    if pairs == [] then [] else EncodeV(pairs[0].0) + EncodeV(pairs[0].1) + Wire(pairs[1..])
  }

  predicate Encodable(pairs: seq<(nat, nat)>)
  {
    forall i :: 0 <= i < |pairs| ==> pairs[i].0 <= MAX_VALUE && pairs[i].1 <= MAX_VALUE
  }

  /** How far below the smallest of one block the smallest of the block that the last pair describes lies: each gap and
      each length is one less than what it stands for. */
  function Drop(pairs: seq<(nat, nat)>): (n: nat)
  {
    if pairs == [] then 0 else Drop(pairs[..|pairs| - 1]) + pairs[|pairs| - 1].0 + pairs[|pairs| - 1].1 + 2
  }

  /** What a frame with the given fields stands for, however many gaps it has: those after the first 256 are ignored. It
      is malformed if and only if a block would go below zero. */
  lemma WireMeans(largest: nat, delay: nat, first: nat, pairs: seq<(nat, nat)>, rest: seq<Byte>)
    requires largest <= MAX_VALUE && delay <= MAX_VALUE && first <= MAX_VALUE && |pairs| <= MAX_VALUE
             && Encodable(pairs)
    ensures var src := EncodeV(largest)
                       + (EncodeV(delay) + (EncodeV(|pairs|) + (EncodeV(first) + (Wire(pairs) + rest))));
            var used := pairs[..Min(|pairs|, 256)]; var r := DecodeAck(src, false);
            && (r.Some? <==> first + Drop(used) <= largest)
            && (r.Some? ==>
                  && r.value.1 == rest && r.value.0.largest == largest && r.value.0.delay == delay
                  && r.value.0.smallest == largest - first - Drop(used)
                  && r.value.0.gaps == seq(|used|, i requires 0 <= i < |used| => used[i].0 + 1)
                  && r.value.0.lengths == [first + 1] + seq(|used|, i requires 0 <= i < |used| => used[i].1 + 1)
                  && r.value.0.ecn == [0, 0, 0])
  {
    hide DecodeV, EncodeV, Wire, DecodeGaps, Drop;
    VarintRoundTrip(first, Wire(pairs) + rest);
    VarintRoundTrip(|pairs|, EncodeV(first) + (Wire(pairs) + rest));
    VarintRoundTrip(delay, EncodeV(|pairs|) + (EncodeV(first) + (Wire(pairs) + rest)));
    VarintRoundTrip(largest, EncodeV(delay) + (EncodeV(|pairs|) + (EncodeV(first) + (Wire(pairs) + rest))));
    var used := pairs[..Min(|pairs|, 256)];
    if first <= largest {
      var f := AckFrame(largest, largest - first, delay, [], [first + 1], [0, 0, 0]);
      assert pairs[0..] == pairs;
      NoDrop(pairs);
      WireGaps(pairs, 0, largest, delay, first, f, rest);
    } else {
      assert Drop(used) >= 0;
    }
  }

  lemma NoDrop(pairs: seq<(nat, nat)>)
    ensures Drop(pairs[..0]) == 0
  {
  }

  lemma {:induction false} DropGrows(pairs: seq<(nat, nat)>, i: nat, j: nat)
    requires i <= j <= |pairs|
    ensures Drop(pairs[..i]) <= Drop(pairs[..j])
    decreases j
  {
    if i < j {
      assert pairs[..j][..j - 1] == pairs[..j - 1];
      DropGrows(pairs, i, j - 1);
    }
  }

  /** The first `k` pairs were read into `f`. */
  ghost predicate ReadInto(pairs: seq<(nat, nat)>, k: nat, largest: nat, delay: nat, first: nat, f: AckFrame)
  {
    var n := Min(k, 256);
    && k <= |pairs| && first + Drop(pairs[..n]) <= largest && f.smallest == largest - first - Drop(pairs[..n])
    && f.largest == largest && f.delay == delay && f.ecn == [0, 0, 0]
    && |f.gaps| == n && (forall i :: 0 <= i < n ==> f.gaps[i] == pairs[i].0 + 1)
    && |f.lengths| == n + 1 && f.lengths[0] == first + 1
    && forall i :: 0 <= i < n ==> f.lengths[i + 1] == pairs[i].1 + 1
  }

  lemma {:induction false} WireGaps(pairs: seq<(nat, nat)>, k: nat, largest: nat, delay: nat, first: nat, f: AckFrame,
                                    rest: seq<Byte>)
    requires Encodable(pairs) && ReadInto(pairs, k, largest, delay, first, f)
    ensures var r := DecodeGaps(Wire(pairs[k..]) + rest, |pairs| - k, f);
            && (r.Some? <==> first + Drop(pairs[..Min(|pairs|, 256)]) <= largest)
            && (r.Some? ==> r.value.1 == rest && ReadInto(pairs, |pairs|, largest, delay, first, r.value.0))
    decreases |pairs| - k
  {
    hide DecodeV, EncodeV, Drop;
    if k == |pairs| {
      assert pairs[k..] == [] && Wire([]) + rest == rest;
    } else {
      var g, a := pairs[k].0, pairs[k].1;
      var tail := Wire(pairs[k + 1..]);
      assert pairs[k..][1..] == pairs[k + 1..];
      assert EncodeV(g) + EncodeV(a) + tail + rest == EncodeV(g) + (EncodeV(a) + (tail + rest));
      VarintRoundTrip(a, tail + rest);
      VarintRoundTrip(g, EncodeV(a) + (tail + rest));
      if k < 256 {
        NextDrop(pairs, k);
        if f.smallest < g + a + 2 {
          DropGrows(pairs, k + 1, Min(|pairs|, 256));
        } else {
          WireGaps(pairs, k + 1, largest, delay, first, Extend(f, g, a), rest);
        }
      } else {
        WireGaps(pairs, k + 1, largest, delay, first, f, rest);
      }
    }
  }

  lemma NextDrop(pairs: seq<(nat, nat)>, k: nat)
    requires k < |pairs|
    ensures Drop(pairs[..k + 1]) == Drop(pairs[..k]) + pairs[k].0 + pairs[k].1 + 2
  {
    assert pairs[..k + 1][..k] == pairs[..k];
  }
}
