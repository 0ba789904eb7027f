/** Loss detection (lib/loss.c; section 6.1 of RFC 9002). */
module Losses {
  import opened Basics
  import opened SentBlocks
  import opened SentPackets
  import opened Sentmaps

  const PACKET_THRESHOLD: nat := 3
  const INT64_MAX: nat := 0x7FFF_FFFF_FFFF_FFFF
  const PACKETS_KEPT: nat := 32
  const EPOCHS: nat := 4

  /** `largestPlus1` has one more than the largest packet number acked in each packet number space, zero if none. */
  datatype Rules = Rules(now: int, delay: real, usePacketBased: bool, largestPlus1: seq<nat>)

  predicate Proper(r: Rules)
  {
    r.delay >= 1.0 && |r.largestPlus1| == EPOCHS
  }

  function Deadline(r: Rules, info: PacketInfo): (t: real)
  {
    info.sentAt + r.delay
  }

  /** Whether a later packet of the space has been acked. */
  predicate Overtaken(r: Rules, info: PacketInfo)
  {
    info.epoch < |r.largestPlus1| && info.number + 1 < r.largestPlus1[info.epoch]
  }

  /** The two thresholds. */
  predicate IsLost(r: Rules, info: PacketInfo)
  {
    Overtaken(r, info) &&
    (Deadline(r, info) <= r.now as real
     || (r.usePacketBased && info.number + 1 + PACKET_THRESHOLD <= r.largestPlus1[info.epoch]))
  }

  function Mark(r: Rules, p: Packet): (q: Packet)
  {
    if IsLost(r, p.info) && p.info.ccBytes != 0 then Packet(Settled(p.info, LostEvent), p.frames) else p
  }

  /** The first `k` packets examined. */
  function Marked(r: Rules, ps: seq<Packet>, k: nat): (qs: seq<Packet>)
    requires k <= |ps|
  {
    seq(|ps|, i requires 0 <= i < |ps| => if i < k then Mark(r, ps[i]) else ps[i])
  }

  /** All packets are of one space, in the order they were sent. */
  ghost predicate OneSpace(ps: seq<Packet>)
  {
    forall i, j :: 0 <= i < j < |ps| ==>
      && ps[i].info.epoch == ps[j].info.epoch && ps[i].info.number < ps[j].info.number
      && ps[i].info.sentAt <= ps[j].info.sentAt
  }

  /** Packets in the order they were sent, whatever their spaces. */
  ghost predicate InOrder(ps: seq<Packet>)
  {
    forall i, j :: 0 <= i < j < |ps| ==> ps[i].info.sentAt <= ps[j].info.sentAt
  }

  ghost predicate Numbered(ps: seq<Packet>)
  {
    forall i :: 0 <= i < |ps| ==> ps[i].info.number < UINT64_MAX && ps[i].info.epoch < EPOCHS
  }

  /** In one space, no packet after one that is not lost is lost: stopping there marks what a full scan marks. */
  lemma StopIsExact(r: Rules, ps: seq<Packet>, k: nat)
    requires OneSpace(ps) && k < |ps| && !IsLost(r, ps[k].info)
    ensures forall j :: k <= j < |ps| ==> !IsLost(r, ps[j].info)
    ensures Marked(r, ps, k) == Marked(r, ps, |ps|)
  {
    forall j | k <= j < |ps| ensures !IsLost(r, ps[j].info) {
      assert j > k ==> ps[k].info.number < ps[j].info.number;
    }
  }

  /** After a full scan nothing outstanding meets a threshold; what was not lost is as it was. */
  lemma NoneLeft(r: Rules, ps: seq<Packet>, i: nat)
    requires i < |ps|
    ensures var q := Marked(r, ps, |ps|)[i];
            && q.frames == ps[i].frames && q.info.number == ps[i].info.number && q.info.sentAt == ps[i].info.sentAt
            && q.info.epoch == ps[i].info.epoch && (q.info.ccBytes != 0 ==> !IsLost(r, q.info))
            && (!IsLost(r, ps[i].info) ==> q == ps[i])
            && (IsLost(r, ps[i].info) ==> q.info.ccBytes == 0 && (ps[i].info.ccBytes != 0 ==> !q.info.framesInFlight))
  {
  }

  lemma MarkedStep(r: Rules, ps: seq<Packet>, k: nat)
    requires k < |ps|
    ensures Marked(r, ps, k)[k] == ps[k]
    ensures Marked(r, ps, k + 1) == Marked(r, ps, k)[k := Mark(r, ps[k])]
  {
  }

  /** What examining one more packet does. */
  lemma MarkedNext(r: Rules, ps: seq<Packet>, k: nat)
    requires k < |ps|
    ensures |Marked(r, ps, k)| == |Marked(r, ps, k + 1)| == |ps| && Marked(r, ps, k)[k] == ps[k]
    ensures Marked(r, ps, k + 1) == if IsLost(r, ps[k].info) && ps[k].info.ccBytes != 0
                                    then Updated(Marked(r, ps, k), k, LostEvent) else Marked(r, ps, k)
  {
    MarkedStep(r, ps, k);
  }

  predicate AllLost(r: Rules, ps: seq<Packet>, k: nat)
    requires k <= |ps|
  {
    forall i :: 0 <= i < k ==> IsLost(r, ps[i].info)
  }

  /** The first `k` packets were overtaken, and nothing of them is in flight. */
  ghost predicate Passed(r: Rules, ps: seq<Packet>, k: nat)
  {
    k <= |ps| && forall i :: 0 <= i < k ==> ps[i].info.ccBytes == 0 && Overtaken(r, ps[i].info)
  }

  lemma LostAreSettled(r: Rules, ps: seq<Packet>, k: nat)
    requires k <= |ps| && AllLost(r, ps, k)
    ensures |Marked(r, ps, k)| == |ps| && Passed(r, Marked(r, ps, k), k)
  {
  }

  lemma MarkedKeeps(r: Rules, ps: seq<Packet>, k: nat)
    requires k <= |ps|
    ensures OneSpace(ps) ==> OneSpace(Marked(r, ps, k))
    ensures InOrder(ps) ==> InOrder(Marked(r, ps, k))
    ensures Numbered(ps) ==> Numbered(Marked(r, ps, k))
    ensures Timely(r, ps) ==> Timely(r, Marked(r, ps, k))
    ensures Marked(r, ps, 0) == ps
  {
  }

  // ----- expiry -----

  function Without(ps: seq<Packet>, k: nat): (qs: seq<Packet>)
    requires k < |ps|
  {
    ps[..k] + ps[k + 1..]
  }

  /** Drops old packets from index `k` on, as long as there are enough of them. */
  function Expired(ps: seq<Packet>, k: nat, before: real, closing: bool): (qs: seq<Packet>)
    requires k <= |ps|
    decreases |ps| - k
  {
    if k == |ps| || ps[k].info.sentAt > before || (!closing && |ps| < PACKETS_KEPT) then ps
    else if ps[k].info.ccBytes != 0 then Expired(ps, k + 1, before, closing)
    else Expired(Without(ps, k), k, before, closing)
  }

  lemma ExpiredStep(ps: seq<Packet>, k: nat, before: real, closing: bool)
    requires k < |ps| && ps[k].info.sentAt <= before && (closing || |ps| >= PACKETS_KEPT)
    ensures ps[k].info.ccBytes != 0 ==> Expired(ps, k, before, closing) == Expired(ps, k + 1, before, closing)
    ensures |Updated(ps, k, ExpiredEvent)| == |ps| - 1
    ensures ps[k].info.ccBytes == 0 ==>
              Expired(ps, k, before, closing) == Expired(Updated(ps, k, ExpiredEvent), k, before, closing)
  {
  }

  lemma ExpiredEnd(ps: seq<Packet>, k: nat, before: real, closing: bool)
    requires k <= |ps| && (k == |ps| || ps[k].info.sentAt > before || (!closing && |ps| < PACKETS_KEPT))
    ensures Expired(ps, k, before, closing) == ps
  {
  }

  /** Expiry keeps every packet that has bytes in flight and every one sent after the limit, keeps the order, and the
      total. */
  lemma {:induction false} ExpiredKeeps(ps: seq<Packet>, k: nat, before: real, closing: bool)
    requires k <= |ps|
    ensures var qs := Expired(ps, k, before, closing);
            && (forall p :: p in ps && (p.info.ccBytes != 0 || p.info.sentAt > before) ==> p in qs)
            && (forall q :: q in qs ==> q in ps)
            && Bytes(qs) == Bytes(ps)
            && (OneSpace(ps) ==> OneSpace(qs)) && (InOrder(ps) ==> InOrder(qs)) && (Numbered(ps) ==> Numbered(qs))
            && (!closing && |ps| >= 32 ==> |qs| >= 31)
            && (!closing && |ps| < 32 ==> qs == ps)
    decreases |ps| - k
  {
    hide OneSpace, InOrder, Numbered, Bytes, Without;
    if k == |ps| || ps[k].info.sentAt > before || (!closing && |ps| < PACKETS_KEPT) {
    } else if ps[k].info.ccBytes != 0 {
      ExpiredKeeps(ps, k + 1, before, closing);
    } else {
      WithoutKeeps(ps, k);
      WithoutAt(ps, k);
      ExpiredKeeps(Without(ps, k), k, before, closing);
    }
  }

  lemma WithoutKeeps(ps: seq<Packet>, k: nat)
    requires k < |ps| && ps[k].info.ccBytes == 0
    ensures var qs := Without(ps, k);
            && (forall p :: p in ps && p != ps[k] ==> p in qs) && (forall q :: q in qs ==> q in ps)
            && Bytes(qs) == Bytes(ps)
            && (OneSpace(ps) ==> OneSpace(qs)) && (InOrder(ps) ==> InOrder(qs)) && (Numbered(ps) ==> Numbered(qs))
  {
    hide Without, Bytes;
    WithoutBytes(ps, k);
    WithoutAt(ps, k);
    WithoutMembers(ps, k);
  }

  lemma WithoutBytes(ps: seq<Packet>, k: nat)
    requires k < |ps|
    ensures Bytes(Without(ps, k)) == Bytes(ps) - ps[k].info.ccBytes
  {
    hide Bytes;
    BytesAt(ps, k);
    BytesConcat(ps[..k], ps[k + 1..]);
  }

  lemma WithoutAt(ps: seq<Packet>, k: nat)
    requires k < |ps|
    ensures |Without(ps, k)| == |ps| - 1
    ensures forall i :: 0 <= i < |Without(ps, k)| ==> Without(ps, k)[i] == ps[if i < k then i else i + 1]
  {
  }

  lemma WithoutMembers(ps: seq<Packet>, k: nat)
    requires k < |ps|
    ensures var qs := Without(ps, k);
            (forall p :: p in ps && p != ps[k] ==> p in qs) && (forall q :: q in qs ==> q in ps)
  {
    var qs := Without(ps, k);
    WithoutAt(ps, k);
    forall p | p in ps && p != ps[k] ensures p in qs {
      var i :| 0 <= i < |ps| && ps[i] == p;
      assert qs[if i < k then i else i - 1] == p;
    }
  }

  // ----- the alarm -----

  function Ceil(x: real): (n: int)
    ensures n as real >= x && (n - 1) as real < x
  {
    -((-x).Floor)
  }

  predicate Outstanding(r: Rules, p: Packet)
  {
    p.info.ccBytes != 0 && Overtaken(r, p.info)
  }

  /** `t` is the least deadline of the outstanding packets that were overtaken, rounded up, or the greatest value if
      none. */
  ghost predicate IsLossTime(r: Rules, ps: seq<Packet>, t: int)
  {
    if exists i :: 0 <= i < |ps| && Outstanding(r, ps[i]) then
      exists i :: 0 <= i < |ps| && Outstanding(r, ps[i]) && t == Ceil(Deadline(r, ps[i].info)) && r.now < t
                  && forall j :: 0 <= j < |ps| && Outstanding(r, ps[j]) ==>
                         Deadline(r, ps[i].info) <= Deadline(r, ps[j].info)
    else t == INT64_MAX
  }

  /** A packet that was not overtaken in its own space precedes all the outstanding packets that were in theirs. */
  ghost predicate Shadowed(r: Rules, ps: seq<Packet>)
  {
    exists i :: 0 <= i < |ps| && Shadows(r, ps, i)
  }

  ghost predicate Shadows(r: Rules, ps: seq<Packet>, i: nat)
    requires i < |ps|
  {
    && !Overtaken(r, ps[i].info) && (forall k :: 0 <= k < i ==> !Outstanding(r, ps[k]))
    && exists j :: i < j < |ps| && Outstanding(r, ps[j])
  }

  /** The deadlines fit the 64 bits they are stored in. */
  ghost predicate Timely(r: Rules, ps: seq<Packet>)
  {
    forall i :: 0 <= i < |ps| ==> Deadline(r, ps[i].info) <= (INT64_MAX - 1) as real
  }

  /** In one space, packets are overtaken in order. */
  lemma OneSpaceClear(r: Rules, ps: seq<Packet>)
    requires OneSpace(ps)
    ensures InOrder(ps) && !Shadowed(r, ps)
  {
  }

  /** The first outstanding packet has the least deadline. */
  lemma FirstIsLeast(r: Rules, ps: seq<Packet>, k: nat)
    requires InOrder(ps) && k < |ps| && Outstanding(r, ps[k]) && !IsLost(r, ps[k].info)
    requires forall i :: 0 <= i < k ==> ps[i].info.ccBytes == 0
    ensures r.now as real < Deadline(r, ps[k].info) && IsLossTime(r, ps, Ceil(Deadline(r, ps[k].info)))
  {
  }

  lemma NotShadowed(r: Rules, ps: seq<Packet>, k: nat)
    requires k < |ps| && Outstanding(r, ps[k]) && forall i :: 0 <= i < k ==> Overtaken(r, ps[i].info)
    ensures !Shadowed(r, ps)
  {
  }

  /** The search ends without finding an outstanding packet. There is none if and only if no packet shadows it. */
  lemma NoneFound(r: Rules, ps: seq<Packet>, k: nat)
    requires k <= |ps| && (k < |ps| ==> !Overtaken(r, ps[k].info))
    requires forall i :: 0 <= i < k ==> ps[i].info.ccBytes == 0
    ensures !Shadowed(r, ps) ==> IsLossTime(r, ps, INT64_MAX)
    ensures Shadowed(r, ps) && Timely(r, ps) ==> !IsLossTime(r, ps, INT64_MAX)
  {
    if j :| 0 <= j < |ps| && Outstanding(r, ps[j]) {
      assert k < j && Shadows(r, ps, k);
      assert forall i :: 0 <= i < |ps| && Timely(r, ps) ==> Ceil(Deadline(r, ps[i].info)) < INT64_MAX;
    }
  }

  /** During the handshake the alarm can be missed: a handshake packet that is waiting for its first ack hides a 1-RTT
      packet that was overtaken, for which the alarm should be set. */
  lemma HandshakeShadows()
    ensures var r := Rules(0, 10.0, true, [0, 0, 0, 3]);
            var ps := [Packet(PacketInfo(0, 0.0, 2, true, true, 100), []),
                       Packet(PacketInfo(1, 0.0, 3, true, true, 100), [])];
            && Proper(r) && Numbered(ps) && InOrder(ps) && Timely(r, ps) && Marked(r, ps, 2) == ps
            && Shadowed(r, ps) && Outstanding(r, ps[1]) && !IsLossTime(r, ps, INT64_MAX)
  {
    var r := Rules(0, 10.0, true, [0, 0, 0, 3]);
    var ps := [Packet(PacketInfo(0, 0.0, 2, true, true, 100), []), Packet(PacketInfo(1, 0.0, 3, true, true, 100), [])];
    assert Outstanding(r, ps[1]) && Shadows(r, ps, 0);
    NoneFound(r, ps, 0);
  }

  lemma TimelyPart(r: Rules, ps: seq<Packet>, qs: seq<Packet>)
    requires forall q :: q in qs ==> q in ps
    ensures Timely(r, ps) ==> Timely(r, qs)
  {
    if Timely(r, ps) {
      forall i | 0 <= i < |qs| ensures Deadline(r, qs[i].info) <= (INT64_MAX - 1) as real {
        assert qs[i] in qs;
      }
    }
  }

  /** The two thresholds, written out. */
  lemma Thresholds(r: Rules, info: PacketInfo)
    requires Proper(r) && info.epoch < EPOCHS
    ensures IsLost(r, info) <==>
            && info.number + 1 < r.largestPlus1[info.epoch]
            && (info.sentAt + r.delay <= r.now as real
                || (r.usePacketBased && info.number + 4 <= r.largestPlus1[info.epoch]))
  {
  }

  /** A packet is either as it was, or was lost and is settled. */
  lemma MarkedFrom(r: Rules, ps: seq<Packet>, q: Packet)
    ensures q in Marked(r, ps, |ps|) ==>
              || (q in ps && (q.info.ccBytes == 0 || !IsLost(r, q.info)))
              || exists p :: && p in ps && p.info.ccBytes != 0 && IsLost(r, p.info)
                             && q == Packet(p.info.(framesInFlight := false, ccBytes := 0), p.frames)
    ensures q in ps && !IsLost(r, q.info) ==> q in Marked(r, ps, |ps|)
  {
    var ms := Marked(r, ps, |ps|);
    if q in ms {
      var i :| 0 <= i < |ps| && ms[i] == q;
      assert ps[i] in ps;
    }
    if q in ps && !IsLost(r, q.info) {
      var i :| 0 <= i < |ps| && ps[i] == q;
      assert ms[i] == q;
    }
  }

  /** What detection does to packets in flight: `ps` is what expiry leaves of `ps0`, and `now` what it may leave of what
      is marked. */
  lemma DetectedExactly(r: Rules, ps0: seq<Packet>, ps: seq<Packet>, qs: seq<Packet>, now: seq<Packet>)
    requires Proper(r) && Numbered(ps0) && qs == Marked(r, ps, |ps|)
    requires (forall p :: p in ps ==> p in ps0) && (forall p :: p in now ==> p in qs)
    requires forall p :: p in ps0 && p.info.ccBytes != 0 ==> p in ps
    requires forall p :: p in qs && p.info.ccBytes != 0 ==> p in now
    ensures forall p :: p in ps0 && p.info.ccBytes != 0 ==>
              (p in now <==> !(p.info.number + 1 < r.largestPlus1[p.info.epoch]
                               && (p.info.sentAt + r.delay <= r.now as real
                                   || (r.usePacketBased && p.info.number + 4 <= r.largestPlus1[p.info.epoch]))))
    ensures forall q :: q in now && q !in ps0 ==>
              exists p :: && p in ps0 && p.info.ccBytes != 0 && p !in now
                          && q == Packet(p.info.(framesInFlight := false, ccBytes := 0), p.frames)
  {
    hide Marked, IsLost;
    forall p | p in ps0 && p.info.ccBytes != 0 ensures p in now <==> !IsLost(r, p.info) {
      MarkedFrom(r, ps, p);
    }
    forall p | p in ps0 ensures p.info.epoch < EPOCHS {
      var i :| 0 <= i < |ps0| && ps0[i] == p;
    }
    forall p | p in ps0 && p.info.ccBytes != 0
      ensures p in now <==> !(p.info.number + 1 < r.largestPlus1[p.info.epoch]
                              && (p.info.sentAt + r.delay <= r.now as real
                                  || (r.usePacketBased && p.info.number + 4 <= r.largestPlus1[p.info.epoch])))
    {
      Thresholds(r, p.info);
    }
    forall q | q in now && q !in ps0
      ensures exists p :: && p in ps0 && p.info.ccBytes != 0 && p !in now
                          && q == Packet(p.info.(framesInFlight := false, ccBytes := 0), p.frames)
    {
      MarkedFrom(r, ps, q);
    }
  }

  /** Expiry stops at the first packet that is not old enough, or when too few are left; what it passed over has bytes
      in flight. */
  lemma {:induction false} ExpiredStops(ps: seq<Packet>, k: nat, before: real, closing: bool) returns (n: nat)
    requires k <= |ps| && forall i :: 0 <= i < k ==> ps[i].info.ccBytes != 0 && ps[i].info.sentAt <= before
    ensures var qs := Expired(ps, k, before, closing);
            && n <= |qs| && (forall i :: 0 <= i < n ==> qs[i].info.ccBytes != 0 && qs[i].info.sentAt <= before)
            && (n == |qs| || qs[n].info.sentAt > before || (!closing && |qs| < 32))
    decreases |ps| - k
  {
    if k == |ps| || ps[k].info.sentAt > before || (!closing && |ps| < PACKETS_KEPT) {
      n := k;
    } else if ps[k].info.ccBytes != 0 {
      n := ExpiredStops(ps, k + 1, before, closing);
    } else {
      WithoutAt(ps, k);
      n := ExpiredStops(Without(ps, k), k, before, closing);
    }
  }

  lemma NonePassed(r: Rules, ps: seq<Packet>)
    ensures Passed(r, ps, 0)
  {
  }

  class LossDetector {
    const sentmap: Sentmap
    var lossTime: int

    constructor (m: Sentmap)
      ensures sentmap == m && lossTime == INT64_MAX
    {
      sentmap, lossTime := m, INT64_MAX;
    }

    /** Drops what has expired, then starts from the head. */
    method InitSentmapIter(before: real, closing: bool) returns (it: Iter, ghost b: nat)
      requires sentmap.Tracks() && sentmap.pending == None
      modifies sentmap
      ensures sentmap.Tracks() && sentmap.pending == None && sentmap.OnPacket(it, b, 0)
      ensures sentmap.packets == Expired(old(sentmap.packets), 0, before, closing)
    {
      hide Sentmap.Tracks, Sentmap.OnPacket, Sentmap.Valid, Expired, Without, Updated;
      TracksOpen(sentmap);
      it, b := sentmap.InitIter();
      ghost var k, ps := 0, sentmap.packets;
      var info := sentmap.Get(it, b, k);
      while !it.atEnd && info.sentAt <= before
        invariant sentmap.Tracks() && sentmap.pending == None && 0 <= k <= |sentmap.packets|
                  && sentmap.OnPacket(it, b, k)
        invariant Expired(sentmap.packets, k, before, closing) == Expired(ps, 0, before, closing)
        invariant it.atEnd <==> k == |sentmap.packets|
        invariant k < |sentmap.packets| ==> info == sentmap.packets[k].info
        decreases |sentmap.packets| - k
      {
        TracksOpen(sentmap);
        if !closing && sentmap.numPackets < PACKETS_KEPT {
          break;
        }
        ExpiredStep(sentmap.packets, k, before, closing);
        if info.ccBytes != 0 {
          it, b := sentmap.Skip(it, b, k);
          k := k + 1;
        } else {
          var ok, reported;
          ok, it, reported, b := sentmap.Update(it, ExpiredEvent, None, b, k);
        }
        info := sentmap.Get(it, b, k);
      }
      ExpiredEnd(sentmap.packets, k, before, closing);
      TracksOpen(sentmap);
      it, b := sentmap.InitIter();
    }

    lemma TracksOpen(m: Sentmap)
      requires m.Tracks() && m.pending == None
      ensures m.Valid() && m.numPackets == |m.packets|
    {
    }

    /** Marks as lost what either threshold says is, and sets the time of the next alarm. `before` is when packets sent
        by then have expired. */
    method DetectLoss(r: Rules, before: real, oneSpaceOnly: bool)
      requires sentmap.Tracks() && sentmap.pending == None && Proper(r) && Numbered(sentmap.packets)
      requires oneSpaceOnly ==> OneSpace(sentmap.packets)
      modifies this, sentmap
      ensures sentmap.Tracks() && sentmap.pending == None
      ensures var ps := Expired(old(sentmap.packets), 0, before, false); var qs := Marked(r, ps, |ps|);
              sentmap.packets == if oneSpaceOnly then qs else Expired(qs, 0, before, false)
      ensures forall p :: p in old(sentmap.packets) && p.info.ccBytes != 0 ==>
                (p in sentmap.packets <==>
                   !(p.info.number + 1 < r.largestPlus1[p.info.epoch]
                     && (p.info.sentAt + r.delay <= r.now as real
                         || (r.usePacketBased && p.info.number + 4 <= r.largestPlus1[p.info.epoch]))))
      ensures forall q :: q in sentmap.packets && q !in old(sentmap.packets) ==>
                exists p :: && p in old(sentmap.packets) && p.info.ccBytes != 0 && p !in sentmap.packets
                            && q == Packet(p.info.(framesInFlight := false, ccBytes := 0), p.frames)
      ensures old(InOrder(sentmap.packets)) && Timely(r, old(sentmap.packets)) ==>
                (IsLossTime(r, sentmap.packets, lossTime) <==> !Shadowed(r, sentmap.packets))
      ensures old(OneSpace(sentmap.packets)) ==> IsLossTime(r, sentmap.packets, lossTime)
    {
      hide Sentmap.Tracks, Sentmap.OnPacket, Expired, Marked, OneSpace, InOrder, Timely, Numbered, Shadowed, IsLossTime,
           IsLost, Bytes, Passed;
      lossTime := INT64_MAX;
      ghost var ps0 := sentmap.packets;
      ExpiredKeeps(ps0, 0, before, false);
      TimelyPart(r, ps0, Expired(ps0, 0, before, false));
      var it, b := InitSentmapIter(before, false);
      ghost var ps := sentmap.packets;
      ghost var k: nat;
      it, b, k := MarkLost(r, oneSpaceOnly, it, b);
      ghost var qs := sentmap.packets;
      MarkedKeeps(r, ps, |ps|);
      if !oneSpaceOnly {
        it, b := InitSentmapIter(before, false);
        k := 0;
        ExpiredKeeps(qs, 0, before, false);
        TimelyPart(r, qs, sentmap.packets);
        NonePassed(r, sentmap.packets);
      }
      assert forall p :: p in qs && p.info.ccBytes != 0 ==> !IsLost(r, p.info) by {
        NoneLostIn(r, ps);
      }
      ExpiredKeeps(qs, 0, before, false);
      DetectedExactly(r, ps0, ps, qs, sentmap.packets);
      if old(OneSpace(sentmap.packets)) {
        OneSpaceClear(r, old(sentmap.packets));
        OneSpaceClear(r, sentmap.packets);
      }
      SetAlarm(r, it, b, k);
    }

    static lemma NoneLostIn(r: Rules, ps: seq<Packet>)
      ensures forall p :: p in Marked(r, ps, |ps|) && p.info.ccBytes != 0 ==> !IsLost(r, p.info)
    {
      forall p | p in Marked(r, ps, |ps|) && p.info.ccBytes != 0 ensures !IsLost(r, p.info) {
        var i :| 0 <= i < |ps| && Marked(r, ps, |ps|)[i] == p;
        NoneLeft(r, ps, i);
      }
    }

    /** The first loop: up to the end, or up to the first packet that is not lost if only one space is active. */
    method MarkLost(r: Rules, oneSpaceOnly: bool, it0: Iter, ghost b0: nat)
      returns (it: Iter, ghost b: nat, ghost k: nat)
      requires sentmap.Tracks() && sentmap.pending == None && Proper(r) && Numbered(sentmap.packets)
      requires oneSpaceOnly ==> OneSpace(sentmap.packets)
      requires sentmap.OnPacket(it0, b0, 0)
      modifies sentmap
      ensures sentmap.Tracks() && sentmap.pending == None
      ensures sentmap.packets == Marked(r, old(sentmap.packets), |old(sentmap.packets)|)
      ensures k <= |sentmap.packets| && sentmap.OnPacket(it, b, k)
      ensures oneSpaceOnly ==> Passed(r, sentmap.packets, k)
    {
      hide Sentmap.Tracks, Sentmap.OnPacket, Sentmap.Valid, Marked, Mark, Updated, OneSpace;
      it, b, k := it0, b0, 0;
      ghost var ps := sentmap.packets;
      MarkedKeeps(r, ps, 0);
      var info := sentmap.Get(it, b, k);
      while info.number != UINT64_MAX
        invariant sentmap.Tracks() && sentmap.pending == None && k <= |ps| && sentmap.OnPacket(it, b, k)
        invariant sentmap.packets == Marked(r, ps, k) && |sentmap.packets| == |ps|
        invariant info == if k < |ps| then ps[k].info else END_OF_ITERATION
        invariant oneSpaceOnly ==> AllLost(r, ps, k)
        decreases |ps| - k
      {
        MarkedNext(r, ps, k);
        var next: int := r.largestPlus1[info.epoch];
        var largest := next - 1;
        if info.number < largest
           && (info.sentAt + r.delay <= r.now as real
               || (r.usePacketBased && info.number <= largest - PACKET_THRESHOLD)) {
          if info.ccBytes != 0 {
            var ok, reported;
            ok, it, reported, b := sentmap.Update(it, LostEvent, None, b, k);
          } else {
            it, b := sentmap.Skip(it, b, k);
          }
        } else {
          if oneSpaceOnly {
            StopIsExact(r, ps, k);
            LostAreSettled(r, ps, k);
            return;
          }
          it, b := sentmap.Skip(it, b, k);
        }
        k := k + 1;
        if k < |ps| {
          MarkedNext(r, ps, k);
        }
        info := sentmap.Get(it, b, k);
      }
      if oneSpaceOnly {
        LostAreSettled(r, ps, k);
      }
    }

    /** The second loop: the deadline of the first outstanding packet. */
    method SetAlarm(r: Rules, it0: Iter, ghost b0: nat, ghost k0: nat)
      requires sentmap.Tracks() && Proper(r) && Numbered(sentmap.packets)
      requires sentmap.OnPacket(it0, b0, k0) && lossTime == INT64_MAX && Passed(r, sentmap.packets, k0)
      requires forall p :: p in sentmap.packets && p.info.ccBytes != 0 ==> !IsLost(r, p.info)
      modifies this`lossTime
      ensures InOrder(sentmap.packets) && !Shadowed(r, sentmap.packets) ==> IsLossTime(r, sentmap.packets, lossTime)
      ensures Timely(r, sentmap.packets) && Shadowed(r, sentmap.packets) ==> !IsLossTime(r, sentmap.packets, lossTime)
    {
      hide Sentmap.Tracks, Sentmap.OnPacket, IsLossTime, Ceil, Shadowed, InOrder, Timely;
      var it := it0;
      ghost var b, k, ps := b0, k0, sentmap.packets;
      var info := sentmap.Get(it, b, k);
      while !it.atEnd && info.number + 1 < r.largestPlus1[info.epoch]
        invariant k <= |ps| && sentmap.OnPacket(it, b, k) && (it.atEnd <==> k == |ps|) && lossTime == INT64_MAX
        invariant info == if k < |ps| then ps[k].info else END_OF_ITERATION
        invariant Passed(r, ps, k)
        decreases |ps| - k
      {
        if info.ccBytes != 0 {
          assert ps[k] in ps;
          if InOrder(ps) {
            FirstIsLeast(r, ps, k);
          }
          NotShadowed(r, ps, k);
          lossTime := Ceil(info.sentAt + r.delay);
          return;
        }
        it, b := sentmap.Skip(it, b, k);
        k := k + 1;
        info := sentmap.Get(it, b, k);
      }
      NoneFound(r, ps, k);
    }
  }
}
