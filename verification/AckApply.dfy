/** Applying an ACK frame to the map of sent packets (handle_ack_frame of lib/quicly.c). */
module AckApplies {
  import opened Basics
  import opened Ranges
  import opened AckFrames
  import opened SentBlocks
  import opened SentPackets
  import opened Sentmaps

  /** Packets in the order of their numbers. */
  ghost predicate Ascending(ps: seq<Packet>)
  {
    && (forall i :: 0 <= i < |ps| ==> ps[i].info.number < UINT64_MAX)
    && forall i, j :: 0 <= i < j < |ps| ==> ps[i].info.number < ps[j].info.number
  }

  ghost predicate Hit(rs: seq<Range>, p: Packet)
  {
    Covers(rs, p.info.number)
  }

  /** The packets that are not acked. */
  ghost function Kept(ps: seq<Packet>, rs: seq<Range>): (r: seq<Packet>)
    ensures |r| <= |ps|
  {
    if ps == [] then []
    else Kept(ps[..|ps| - 1], rs) + if Hit(rs, ps[|ps| - 1]) then [] else [ps[|ps| - 1]]
  }

  /** The numbers of the packets that are acked, in order. */
  ghost function Hits(ps: seq<Packet>, rs: seq<Range>): (r: seq<nat>)
  {
    if ps == [] then []
    else Hits(ps[..|ps| - 1], rs) + if Hit(rs, ps[|ps| - 1]) then [ps[|ps| - 1].info.number] else []
  }

  /** The first `j` packets were dealt with. */
  ghost predicate Walked(now: seq<Packet>, acked: seq<nat>, ps: seq<Packet>, rs: seq<Range>, j: nat, k: nat)
  {
    j <= |ps| && k == |Kept(ps[..j], rs)| && now == Kept(ps[..j], rs) + ps[j..] && acked == Hits(ps[..j], rs)
  }

  /** The packets that the frame covers among the first `n` were acked; the rest is as it was. */
  ghost predicate Stopped(now: seq<Packet>, acked: seq<nat>, ps: seq<Packet>, rs: seq<Range>, n: nat)
  {
    n <= |ps| && now == Kept(ps[..n], rs) + ps[n..] && acked == Hits(ps[..n], rs)
  }

  lemma WalkedNext(now: seq<Packet>, acked: seq<nat>, ps: seq<Packet>, rs: seq<Range>, j: nat, k: nat)
    requires Walked(now, acked, ps, rs, j, k)
    ensures |now| - k == |ps| - j && (j < |ps| ==> now[k] == ps[j])
  {
  }

  lemma WalkedPast(now: seq<Packet>, acked: seq<nat>, ps: seq<Packet>, rs: seq<Range>, j: nat, k: nat)
    requires Walked(now, acked, ps, rs, j, k) && j < |ps|
    ensures !Hit(rs, ps[j]) ==> Walked(now, acked, ps, rs, j + 1, k + 1)
    ensures Hit(rs, ps[j]) ==> k < |now| && Walked(Updated(now, k, AckedEvent), acked + [ps[j].info.number], ps, rs,
                                                   j + 1, k)
  {
    var a, x, c := Kept(ps[..j], rs), ps[j], ps[j + 1..];
    assert ps[..j + 1][..j] == ps[..j] && ps[..j + 1][j] == x;
    assert ps[j..] == [x] + c;
    assert a + [x] + c == a + ([x] + c);
    assert now[..k] == a && now[k + 1..] == c;
  }

  /** Nothing between two neighbouring ranges is covered, nor below the first, nor above the last. */
  lemma Outside(rs: seq<Range>, b: nat, x: int)
    requires Canonical(rs) && b <= |rs| && (b > 0 ==> rs[b - 1].end <= x) && (b < |rs| ==> x < rs[b].start)
    ensures !Covers(rs, x)
  {
    forall i | 0 <= i < |rs| ensures !(rs[i].start <= x < rs[i].end) {
      if i + 1 < b {
        assert rs[i].end < rs[b - 1].start;
      } else if i > b {
        assert rs[b].end < rs[i].start;
      }
    }
  }

  /** What lies below `x` was dealt with, what remains does not. */
  ghost predicate Parted(ps: seq<Packet>, j: nat, x: int)
  {
    && j <= |ps|
    && (forall i :: 0 <= i < j ==> ps[i].info.number < x)
    && (forall i :: j <= i < |ps| ==> ps[i].info.number >= x)
  }

  /** What can stop the frame from being applied: it acks a packet of a space other than `epoch`, or one of the
      callbacks of a packet fails, which `failAt` tells for each packet number. */
  datatype Rule = Rule(epoch: nat, failAt: nat -> Option<nat>)

  predicate Accepts(rule: Rule, p: Packet)
  {
    p.info.epoch == rule.epoch && AllSucceed(|p.frames|, rule.failAt(p.info.number))
  }

  ghost predicate AllAccepted(ps: seq<Packet>, rs: seq<Range>, rule: Rule)
  {
    forall i :: 0 <= i < |ps| && Hit(rs, ps[i]) ==> Accepts(rule, ps[i])
  }

  lemma AcceptedMeans(ps: seq<Packet>, rs: seq<Range>, rule: Rule)
    ensures AllAccepted(ps, rs, rule) <==>
            forall i :: 0 <= i < |ps| && Covers(rs, ps[i].info.number) ==>
              && ps[i].info.epoch == rule.epoch
              && (rule.failAt(ps[i].info.number).None? || rule.failAt(ps[i].info.number).value >= |ps[i].frames|)
  {
    hide Covers;
  }

  /** How many packets have been dealt with when the one at `j` stops the frame: a packet of another space is left
      alone, one whose callback fails is gone. */
  ghost function StopAt(rule: Rule, ps: seq<Packet>, j: nat): (n: nat)
    requires j < |ps|
  {
    if ps[j].info.epoch != rule.epoch then j else j + 1
  }

  /** The packet at `j` is the first one that stops the frame. */
  ghost predicate StopsAt(rule: Rule, ps: seq<Packet>, rs: seq<Range>, j: nat)
  {
    j < |ps| && Hit(rs, ps[j]) && !Accepts(rule, ps[j]) && AcceptedUpTo(ps, rs, rule, j)
  }

  /** The lower bound that the blocks before `b` put on what remains. */
  ghost function Floor(rs: seq<Range>, b: nat): (x: nat)
    requires b <= |rs|
  {
    if b == 0 then 0 else rs[b - 1].end
  }

  /** None of the first `j` packets stops the frame. */
  ghost predicate AcceptedUpTo(ps: seq<Packet>, rs: seq<Range>, rule: Rule, j: nat)
    requires j <= |ps|
  {
    forall i :: 0 <= i < j && Hit(rs, ps[i]) ==> Accepts(rule, ps[i])
  }

  /** The first loop over a block: skips the packets below it. */
  method SkipBelow(m: Sentmap, it0: Iter, start: nat, ghost acked: seq<nat>, ghost b0: nat, ghost k0: nat,
                   ghost ps: seq<Packet>, ghost rs: seq<Range>, ghost rule: Rule, ghost b: nat, ghost j0: nat)
    returns (it: Iter, ghost b': nat, ghost k: nat, ghost j: nat)
    requires m.Tracks() && m.OnPacket(it0, b0, k0) && Walked(m.packets, acked, ps, rs, j0, k0)
    requires Ascending(ps) && Canonical(rs) && b < |rs| && rs[b].start == start < UINT64_MAX
    requires Parted(ps, j0, Floor(rs, b)) && AcceptedUpTo(ps, rs, rule, j0)
    ensures k <= |m.packets| && m.OnPacket(it, b', k) && Walked(m.packets, acked, ps, rs, j, k)
    ensures j <= |ps| && Parted(ps, j, start) && AcceptedUpTo(ps, rs, rule, j)
  {
    hide Sentmap.Tracks, Sentmap.OnPacket, Sentmap.Valid, Walked, Kept, Hits, Updated, Covers;
    it, b', k, j := it0, b0, k0, j0;
    BlockAbove(rs, b);
    WalkedNext(m.packets, acked, ps, rs, j, k);
    var info := m.Get(it, b', k);
    while info.number < start
      invariant m.OnPacket(it, b', k) && Walked(m.packets, acked, ps, rs, j, k)
      invariant j0 <= j <= |ps| && k <= |m.packets| && |m.packets| - k == |ps| - j
      invariant info == if j < |ps| then ps[j].info else END_OF_ITERATION
      invariant forall i :: 0 <= i < j ==> ps[i].info.number < start
      invariant AcceptedUpTo(ps, rs, rule, j)
      decreases |ps| - j
    {
      Outside(rs, b, ps[j].info.number);
      WalkedPast(m.packets, acked, ps, rs, j, k);
      it, b' := m.Skip(it, b', k);
      j, k := j + 1, k + 1;
      WalkedNext(m.packets, acked, ps, rs, j, k);
      info := m.Get(it, b', k);
    }
  }

  lemma BlockAbove(rs: seq<Range>, b: nat)
    requires Canonical(rs) && b < |rs|
    ensures Floor(rs, b) <= rs[b].start
  {
  }

  /** The second loop over a block: acks the packets in it. */
  method AckWithin(m: Sentmap, it0: Iter, start: nat, max: nat, rule: Rule, acked0: seq<nat>, ghost b0: nat,
                   ghost k0: nat, ghost ps: seq<Packet>, ghost rs: seq<Range>, ghost b: nat, ghost j0: nat)
    returns (ok: bool, it: Iter, acked: seq<nat>, ghost b': nat, ghost k: nat, ghost j: nat)
    requires m.Tracks() && m.pending == None && m.OnPacket(it0, b0, k0) && Walked(m.packets, acked0, ps, rs, j0, k0)
    requires Ascending(ps) && b < |rs| && rs[b] == Range(start, max + 1) && start <= max < UINT64_MAX
    requires Parted(ps, j0, start) && AcceptedUpTo(ps, rs, rule, j0)
    modifies m
    ensures m.Tracks() && m.pending == None && k <= |m.packets| && m.OnPacket(it, b', k)
    ensures ok ==> Walked(m.packets, acked, ps, rs, j, k) && Parted(ps, j, max + 1) && AcceptedUpTo(ps, rs, rule, j)
    ensures !ok ==> StopsAt(rule, ps, rs, j) && Walked(m.packets, acked, ps, rs, StopAt(rule, ps, j), k)
  {
    hide Sentmap.Tracks, Sentmap.OnPacket, Sentmap.Valid, Walked, Kept, Hits, Updated, Hit;
    it, acked, b', k, j := it0, acked0, b0, k0, j0;
    WalkedNext(m.packets, acked, ps, rs, j, k);
    var info := m.Get(it, b', k);
    var pn := start;
    while pn <= max
      invariant m.Tracks() && m.pending == None && m.OnPacket(it, b', k) && Walked(m.packets, acked, ps, rs, j, k)
      invariant j <= |ps| && k <= |m.packets| && |m.packets| - k == |ps| - j
      invariant info == if j < |ps| then ps[j].info else END_OF_ITERATION
      invariant start <= pn <= max + 1 && Parted(ps, j, pn) && AcceptedUpTo(ps, rs, rule, j)
      decreases max + 1 - pn
    {
      var number := info.number;
      if pn < number {
        if number <= max {
          pn := number;
        } else {
          pn := max + 1;
          break;
        }
      }
      InBlock(rs, b, ps[j]);
      if rule.epoch != info.epoch {
        ok := false;
        return;
      }
      WalkedNext(m.packets, acked, ps, rs, j, k);
      WalkedPast(m.packets, acked, ps, rs, j, k);
      var done, reported;
      done, it, reported, b' := m.Update(it, AckedEvent, rule.failAt(number), b', k);
      acked := acked + [number];
      WalkedNext(m.packets, acked, ps, rs, j + 1, k);
      if !done {
        ok := false;
        return;
      }
      j := j + 1;
      WalkedNext(m.packets, acked, ps, rs, j, k);
      info := m.Get(it, b', k);
      pn := pn + 1;
    }
    ok := true;
  }

  lemma InBlock(rs: seq<Range>, b: nat, p: Packet)
    requires b < |rs| && rs[b].start <= p.info.number < rs[b].end
    ensures Hit(rs, p)
  {
  }

  /** The blocks of a frame, from the lowest up, as the arrays have them. */
  lemma {:induction false} BlockAt(s: nat, gaps: seq<nat>, lengths: seq<nat>, b: nat)
    requires |lengths| == |gaps| + 1 && b <= |gaps|
    ensures var rs, n := RangesFrom(s, gaps, lengths), |gaps|;
            && |rs| == n + 1 && rs[b].end - rs[b].start == lengths[n - b]
            && (b < n ==> rs[b + 1].start == rs[b].end + gaps[n - b - 1]) && rs[0].start == s
    decreases |gaps|
  {
    var n := |gaps|;
    if n > 0 {
      var t := s + lengths[n] + gaps[n - 1];
      BlockAt(t, gaps[..n - 1], lengths[..n], if b > 0 then b - 1 else 0);
    }
  }

  /** Applies an ACK frame: the packets that it covers, and no others, are acked, in ascending order. A packet of
      another packet number space among them, or a callback that fails, ends it, and what comes before has then been
      acked. */
  method ApplyAck(m: Sentmap, f: AckFrame, rule: Rule) returns (ok: bool, acked: seq<nat>, ghost j: nat)
    requires m.Tracks() && m.pending == None && Ascending(m.packets) && Describes(f) && f.largest < UINT64_MAX
    modifies m
    ensures m.Tracks() && m.pending == None
    ensures var ps, rs := old(m.packets), RangesFrom(f.smallest, f.gaps, f.lengths);
            && (ok <==> AllAccepted(ps, rs, rule))
            && (ok <==> forall i :: 0 <= i < |ps| && Covers(rs, ps[i].info.number) ==>
                          && ps[i].info.epoch == rule.epoch
                          && (rule.failAt(ps[i].info.number).None?
                              || rule.failAt(ps[i].info.number).value >= |ps[i].frames|))
            && (ok ==> m.packets == Kept(ps, rs) && acked == Hits(ps, rs))
            && (!ok ==> StopsAt(rule, ps, rs, j) && Stopped(m.packets, acked, ps, rs, StopAt(rule, ps, j)))
  {
    hide Sentmap.Tracks, Sentmap.OnPacket, Sentmap.Valid, Kept, Hits, Hit, RangesFrom, Describes, Ascending, Canonical,
         Midway, AtBlock, AllAccepted, StopsAt, Stopped, StopAt;
    StartBlock(f);
    AcceptedMeans(m.packets, RangesFrom(f.smallest, f.gaps, f.lengths), rule);
    ghost var ps, rs := m.packets, RangesFrom(f.smallest, f.gaps, f.lengths);
    TracksList(m);
    var it; ghost var b'; ghost var k := 0;
    it, b' := m.InitIter();
    j, acked := 0, [];
    WalkStart(ps, rs, rule);
    var pn: nat, gapIndex: nat := f.smallest, |f.gaps|;
    ghost var b: nat := 0;
    while true
      invariant m.Tracks() && m.pending == None && m.OnPacket(it, b', k)
      invariant AtBlock(f, b, gapIndex, pn) && b < |rs|
      invariant Midway(m.packets, acked, ps, rs, rule, b, j, k)
      decreases gapIndex
    {
      BlockHere(f, b, gapIndex, pn);
      var max := pn + f.lengths[gapIndex] - 1;
      ok, it, acked, b', k, j := AckBlock(m, it, pn, max, rule, acked, b', k, ps, rs, b, j);
      if !ok {
        return;
      }
      pn := max + 1;
      if gapIndex == 0 {
        break;
      }
      gapIndex := gapIndex - 1;
      pn := pn + f.gaps[gapIndex];
      b := b + 1;
    }
    WalkDone(m.packets, acked, ps, rs, j, k, rule);
  }

  /** `pn` is where block `b` starts, counted from below; the arrays of the frame have its length at `gapIndex`. */
  ghost predicate AtBlock(f: AckFrame, b: nat, gapIndex: nat, pn: nat)
  {
    && |f.lengths| == |f.gaps| + 1 && b + gapIndex == |f.gaps|
    && var rs := RangesFrom(f.smallest, f.gaps, f.lengths); |rs| == |f.lengths| && b < |rs| && pn == rs[b].start
  }

  lemma StartBlock(f: AckFrame)
    requires Describes(f)
    ensures |f.lengths| == |f.gaps| + 1 && AtBlock(f, 0, |f.gaps|, f.smallest)
    ensures var rs := RangesFrom(f.smallest, f.gaps, f.lengths); rs != [] && Canonical(rs)
  {
    hide RangesFrom, Describes, Canonical;
    FrameFacts(f);
    FrameBlock(f, 0);
  }

  /** One round of the loop over the blocks. */
  lemma BlockHere(f: AckFrame, b: nat, gapIndex: nat, pn: nat)
    requires Describes(f) && AtBlock(f, b, gapIndex, pn) && |f.lengths| == |f.gaps| + 1
    ensures var rs := RangesFrom(f.smallest, f.gaps, f.lengths);
            && b < |rs| && gapIndex < |f.lengths| && f.lengths[gapIndex] > 0
            && rs[b] == Range(pn, pn + f.lengths[gapIndex]) && pn + f.lengths[gapIndex] <= f.largest + 1
            && (gapIndex == 0 ==> b + 1 == |rs|)
            && (gapIndex > 0 ==> gapIndex - 1 < |f.gaps| && b + 1 < |rs|
                                 && AtBlock(f, b + 1, gapIndex - 1, pn + f.lengths[gapIndex] + f.gaps[gapIndex - 1]))
  {
    hide RangesFrom, Describes;
    FrameBlock(f, b);
  }

  /** All the blocks before `b` were dealt with. */
  ghost predicate Midway(now: seq<Packet>, acked: seq<nat>, ps: seq<Packet>, rs: seq<Range>, rule: Rule, b: nat, j: nat,
                         k: nat)
    requires b <= |rs|
  {
    Walked(now, acked, ps, rs, j, k) && Parted(ps, j, Floor(rs, b)) && AcceptedUpTo(ps, rs, rule, j)
  }

  /** One block of the frame. */
  method AckBlock(m: Sentmap, it0: Iter, start: nat, max: nat, rule: Rule, acked0: seq<nat>, ghost b0: nat,
                  ghost k0: nat, ghost ps: seq<Packet>, ghost rs: seq<Range>, ghost b: nat, ghost j0: nat)
    returns (ok: bool, it: Iter, acked: seq<nat>, ghost b': nat, ghost k: nat, ghost j: nat)
    requires m.Tracks() && m.pending == None && m.OnPacket(it0, b0, k0) && Ascending(ps) && Canonical(rs)
    requires b < |rs| && rs[b] == Range(start, max + 1) && start <= max < UINT64_MAX
    requires Midway(m.packets, acked0, ps, rs, rule, b, j0, k0)
    modifies m
    ensures m.Tracks() && m.pending == None && m.OnPacket(it, b', k)
    ensures ok ==> Midway(m.packets, acked, ps, rs, rule, b + 1, j, k)
    ensures !ok ==> && StopsAt(rule, ps, rs, j) && !AllAccepted(ps, rs, rule)
                    && Stopped(m.packets, acked, ps, rs, StopAt(rule, ps, j))
  {
    hide Sentmap.Tracks, Sentmap.OnPacket, Sentmap.Valid, Kept, Hits, Hit, Walked, Parted, Ascending, AcceptedUpTo,
         Canonical, StopsAt, Stopped, StopAt, AllAccepted;
    it, b', k, j := SkipBelow(m, it0, start, acked0, b0, k0, ps, rs, rule, b, j0);
    ok, it, acked, b', k, j := AckWithin(m, it, start, max, rule, acked0, b', k, ps, rs, b, j);
    if !ok {
      WalkStopped(m.packets, acked, ps, rs, j, k, rule);
    }
  }

  /** What the arrays of a frame say of its block `b`, counted from below. */
  lemma FrameBlock(f: AckFrame, b: nat)
    requires Describes(f) && b <= |f.gaps|
    ensures var rs, n := RangesFrom(f.smallest, f.gaps, f.lengths), |f.gaps|;
            && |f.lengths| == n + 1 == |rs| && rs[b] == Range(rs[b].start, rs[b].start + f.lengths[n - b])
            && f.lengths[n - b] > 0 && rs[b].end <= f.largest + 1 && rs[0].start == f.smallest
            && (b < n ==> rs[b + 1].start == rs[b].end + f.gaps[n - b - 1])
  {
    hide RangesFrom;
    FrameFacts(f);
    BlockAt(f.smallest, f.gaps, f.lengths, b);
    BlockBelow(RangesFrom(f.smallest, f.gaps, f.lengths), b);
  }

  lemma WalkStopped(now: seq<Packet>, acked: seq<nat>, ps: seq<Packet>, rs: seq<Range>, j: nat, k: nat, rule: Rule)
    requires StopsAt(rule, ps, rs, j) && Walked(now, acked, ps, rs, StopAt(rule, ps, j), k)
    ensures Stopped(now, acked, ps, rs, StopAt(rule, ps, j)) && !AllAccepted(ps, rs, rule)
  {
  }

  lemma WalkDone(now: seq<Packet>, acked: seq<nat>, ps: seq<Packet>, rs: seq<Range>, j: nat, k: nat, rule: Rule)
    requires rs != [] && Canonical(rs) && Midway(now, acked, ps, rs, rule, |rs|, j, k)
    ensures now == Kept(ps, rs) && acked == Hits(ps, rs) && AllAccepted(ps, rs, rule)
  {
    hide Walked, Kept, Hits, Hit;
    WalkEnd(now, acked, ps, rs, j, k);
  }

  lemma TracksList(m: Sentmap)
    requires m.Tracks()
    ensures m.Valid()
  {
  }

  lemma FrameFacts(f: AckFrame)
    requires Describes(f)
    ensures |f.lengths| == |f.gaps| + 1 && Positive(f.lengths)
            && |RangesFrom(f.smallest, f.gaps, f.lengths)| == |f.lengths|
    ensures var rs := RangesFrom(f.smallest, f.gaps, f.lengths); rs[|rs| - 1].end == f.largest + 1 && Canonical(rs)
  {
    RangesFromFacts(f.smallest, f.gaps, f.lengths);
  }

  lemma BlockBelow(rs: seq<Range>, b: nat)
    requires Canonical(rs) && b < |rs|
    ensures rs[b].start < rs[b].end <= rs[|rs| - 1].end
  {
    assert b < |rs| - 1 ==> rs[b].end < rs[|rs| - 1].start;
  }

  lemma WalkStart(ps: seq<Packet>, rs: seq<Range>, rule: Rule)
    ensures Midway(ps, [], ps, rs, rule, 0, 0, 0)
  {
    assert ps[..0] == [] && [] + ps[0..] == ps;
  }

  /** Past the last block, nothing more is covered. */
  lemma {:induction false} WalkEnd(now: seq<Packet>, acked: seq<nat>, ps: seq<Packet>, rs: seq<Range>, j: nat, k: nat)
    requires Walked(now, acked, ps, rs, j, k) && rs != [] && Canonical(rs)
    requires forall i :: j <= i < |ps| ==> ps[i].info.number >= rs[|rs| - 1].end
    ensures now == Kept(ps, rs) && acked == Hits(ps, rs) && forall i :: j <= i < |ps| ==> !Hit(rs, ps[i])
    decreases |ps| - j
  {
    if j == |ps| {
      assert ps[..j] == ps && ps[j..] == [] && Kept(ps, rs) + [] == Kept(ps, rs);
    } else {
      Outside(rs, |rs|, ps[j].info.number);
      WalkedPast(now, acked, ps, rs, j, k);
      WalkEnd(now, acked, ps, rs, j + 1, k + 1);
    }
  }
}
