/** The flat list of sent entries read as packets, each a header followed by its frames (lib/sentmap.c). */
module SentPackets {
  import opened Basics
  import opened SentBlocks

  datatype Packet = Packet(info: PacketInfo, frames: seq<nat>)

  ghost function FrameSlots(ids: seq<nat>): (s: seq<Slot>)
    ensures |s| == |ids|
  {
    if ids == [] then [] else [Frame(ids[0])] + FrameSlots(ids[1..])
  }

  lemma {:induction false} FrameSlotAt(ids: seq<nat>, j: nat)
    requires j < |ids|
    ensures FrameSlots(ids)[j] == Frame(ids[j])
    decreases j
  {
    if j > 0 {
      FrameSlotAt(ids[1..], j - 1);
    }
  }

  lemma {:induction false} FrameSlotsConcat(a: seq<nat>, b: seq<nat>)
    ensures FrameSlots(a + b) == FrameSlots(a) + FrameSlots(b)
    decreases |a|
  {
    if a == [] {
      assert a + b == b;
      assert FrameSlots(a) + FrameSlots(b) == FrameSlots(b);
    } else {
      FrameSlotsConcat(a[1..], b);
      assert (a + b)[1..] == a[1..] + b;
      Regroup([Frame(a[0])], FrameSlots(a[1..]), FrameSlots(b));
    }
  }

  ghost function PacketSlots(p: Packet): (s: seq<Slot>)
  {
    [Header(p.info)] + FrameSlots(p.frames)
  }

  ghost function Slots(ps: seq<Packet>): (s: seq<Slot>)
  {
    if ps == [] then [] else PacketSlots(ps[0]) + Slots(ps[1..])
  }

  lemma {:induction false} SlotsConcat(a: seq<Packet>, b: seq<Packet>)
    ensures Slots(a + b) == Slots(a) + Slots(b)
    decreases |a|
  {
    hide PacketSlots;
    if a == [] {
      assert a + b == b && Slots(a) + Slots(b) == Slots(b);
    } else {
      SlotsConcat(a[1..], b);
      assert (a + b)[1..] == a[1..] + b;
      Regroup(PacketSlots(a[0]), Slots(a[1..]), Slots(b));
    }
  }

  lemma SlotsOne(p: Packet)
    ensures Slots([p]) == PacketSlots(p)
  {
    assert Slots([p]) == PacketSlots(p) + Slots([]);
  }

  /** The index of the header of packet `k` in the flat list. */
  ghost function Start(ps: seq<Packet>, k: nat): (i: nat)
    requires k <= |ps|
  {
    |Slots(ps[..k])|
  }

  /** The flat list around packet `k`. */
  lemma SlotsAt(ps: seq<Packet>, k: nat)
    requires k < |ps|
    ensures Slots(ps) == Slots(ps[..k]) + PacketSlots(ps[k]) + Slots(ps[k + 1..])
    ensures Slots(ps[..k + 1]) == Slots(ps[..k]) + PacketSlots(ps[k])
  {
    hide Slots, PacketSlots;
    SplitAt(ps, k);
    SlotsConcat(ps[..k] + [ps[k]], ps[k + 1..]);
    SlotsConcat(ps[..k], [ps[k]]);
    SlotsOne(ps[k]);
  }

  /** What the flat list has at the header of packet `k`, and at each of its frames. */
  lemma SlotOf(ps: seq<Packet>, k: nat, j: nat)
    requires k < |ps| && j <= |ps[k].frames|
    ensures var i := Start(ps, k);
            && i + j < |Slots(ps)| && i + 1 + |ps[k].frames| == Start(ps, k + 1)
            && Slots(ps)[i + j] == if j == 0 then Header(ps[k].info) else Frame(ps[k].frames[j - 1])
  {
    hide Slots;
    SlotsAt(ps, k);
    if j > 0 {
      FrameSlotAt(ps[k].frames, j - 1);
    }
  }

  lemma StartEnds(ps: seq<Packet>)
    ensures Start(ps, |ps|) == |Slots(ps)|
  {
    assert ps[..|ps|] == ps;
  }

  // ----- totals -----

  ghost function Bytes(ps: seq<Packet>): (n: nat)
  {
    if ps == [] then 0 else ps[0].info.ccBytes + Bytes(ps[1..])
  }

  lemma {:induction false} BytesConcat(a: seq<Packet>, b: seq<Packet>)
    ensures Bytes(a + b) == Bytes(a) + Bytes(b)
    decreases |a|
  {
    if a == [] {
      assert a + b == b;
    } else {
      BytesConcat(a[1..], b);
      assert (a + b)[1..] == a[1..] + b;
    }
  }

  lemma BytesAt(ps: seq<Packet>, k: nat)
    requires k < |ps|
    ensures Bytes(ps) == Bytes(ps[..k]) + ps[k].info.ccBytes + Bytes(ps[k + 1..])
  {
    SplitAt(ps, k);
    BytesConcat(ps[..k] + [ps[k]], ps[k + 1..]);
    BytesConcat(ps[..k], [ps[k]]);
    assert Bytes([ps[k]]) == ps[k].info.ccBytes;
  }

  // ----- events -----

  datatype Event = AckedEvent | PtoEvent | LostEvent | ExpiredEvent

  predicate Discards(e: Event)
  {
    e == AckedEvent || e == ExpiredEvent
  }

  /** Whether the frames of a packet hear of the event. */
  predicate Notifies(info: PacketInfo, e: Event)
  {
    e == AckedEvent || info.framesInFlight
  }

  function Settled(info: PacketInfo, e: Event): (r: PacketInfo)
  {
    info.(framesInFlight := false, ccBytes := if e == PtoEvent then info.ccBytes else 0)
  }

  /** The packets after an event of packet `k`. */
  ghost function Updated(ps: seq<Packet>, k: nat, e: Event): (r: seq<Packet>)
    requires k < |ps|
  {
    if Discards(e) then ps[..k] + ps[k + 1..] else ps[k := Packet(Settled(ps[k].info, e), ps[k].frames)]
  }

  /** What each event does to the packets. */
  lemma UpdatedIs(ps: seq<Packet>, k: nat, e: Event)
    requires k < |ps|
    ensures var i := ps[k].info;
            && (e == AckedEvent || e == ExpiredEvent ==> Updated(ps, k, e) == ps[..k] + ps[k + 1..])
            && (e == LostEvent ==>
                  Updated(ps, k, e) == ps[k := Packet(i.(framesInFlight := false, ccBytes := 0), ps[k].frames)])
            && (e == PtoEvent ==> Updated(ps, k, e) == ps[k := Packet(i.(framesInFlight := false), ps[k].frames)])
  {
  }

  lemma UpdatedBytes(ps: seq<Packet>, k: nat, e: Event)
    requires k < |ps|
    ensures Bytes(Updated(ps, k, e)) == Bytes(ps) - if e == PtoEvent then 0 else ps[k].info.ccBytes
  {
    BytesAt(ps, k);
    if Discards(e) {
      BytesConcat(ps[..k], ps[k + 1..]);
    } else {
      BytesAt(Updated(ps, k, e), k);
      assert Updated(ps, k, e)[..k] == ps[..k] && Updated(ps, k, e)[k + 1..] == ps[k + 1..];
    }
  }

  // ----- in the middle of an event -----

  lemma SlotsGrow(ps: seq<Packet>, p: Packet)
    ensures Slots(ps + [p]) == Slots(ps) + PacketSlots(p) && Start(ps + [p], |ps|) == |Slots(ps)|
  {
    hide Slots, PacketSlots;
    SlotsConcat(ps, [p]);
    SlotsOne(p);
    assert (ps + [p])[..|ps|] == ps;
  }

  /** Adding a frame to the last packet. */
  lemma SlotsAddFrame(ps: seq<Packet>, p: Packet, id: nat)
    ensures Slots(ps + [Packet(p.info, p.frames + [id])]) == Slots(ps + [p]) + [Frame(id)]
  {
    hide Slots;
    SlotsGrow(ps, p);
    SlotsGrow(ps, Packet(p.info, p.frames + [id]));
    FrameSlotsConcat(p.frames, [id]);
    assert FrameSlots([id]) == [Frame(id)];
  }

  /** Changing the header of a packet. */
  lemma SlotsSetHeader(ps: seq<Packet>, k: nat, info: PacketInfo)
    requires k < |ps|
    ensures Start(ps, k) < |Slots(ps)|
    ensures Slots(ps[k := Packet(info, ps[k].frames)]) == Slots(ps)[Start(ps, k) := Header(info)]
  {
    hide Slots;
    var ps' := ps[k := Packet(info, ps[k].frames)];
    SlotsAt(ps, k);
    SlotsAt(ps', k);
    assert ps'[..k] == ps[..k] && ps'[k + 1..] == ps[k + 1..];
    var a, f, c := Slots(ps[..k]), FrameSlots(ps[k].frames), Slots(ps[k + 1..]);
    assert a + ([Header(info)] + f) + c == (a + ([Header(ps[k].info)] + f) + c)[|a| := Header(info)];
  }

  /** The flat list once the header of packet `k` and `j` of its frames were dealt with. */
  ghost function Partial(ps: seq<Packet>, k: nat, e: Event, j: nat): (s: seq<Slot>)
    requires k < |ps| && j <= |ps[k].frames|
  {
    if Discards(e) then Slots(ps[..k]) + FrameSlots(ps[k].frames)[j..] + Slots(ps[k + 1..])
    else Slots(Updated(ps, k, e))
  }

  ghost function PartialAt(ps: seq<Packet>, k: nat, e: Event, j: nat): (i: nat)
    requires k < |ps|
  {
    if Discards(e) then Start(ps, k) else Start(ps, k) + 1 + j
  }

  /** What the iterator meets after `j` frames: the next frame, or what follows the packet. */
  lemma PartialNext(ps: seq<Packet>, k: nat, e: Event, j: nat)
    requires k < |ps| && j <= |ps[k].frames|
    ensures var s, i := Partial(ps, k, e, j), PartialAt(ps, k, e, j);
            && i <= |s|
            && (j < |ps[k].frames| ==> i < |s| && s[i] == Frame(ps[k].frames[j]))
            && (j == |ps[k].frames| ==> && i == Start(Updated(ps, k, e), if Discards(e) then k else k + 1)
                                        && s == Slots(Updated(ps, k, e)) && (i < |s| ==> s[i].Header?))
  {
    if Discards(e) {
      DiscardNext(ps, k, j);
    } else {
      KeepNext(ps, k, e, j);
    }
  }

  lemma DiscardNext(ps: seq<Packet>, k: nat, j: nat)
    requires k < |ps| && j <= |ps[k].frames|
    ensures var s, i := Slots(ps[..k]) + FrameSlots(ps[k].frames)[j..] + Slots(ps[k + 1..]), Start(ps, k);
            var u := ps[..k] + ps[k + 1..];
            && i <= |s| && (j < |ps[k].frames| ==> i < |s| && s[i] == Frame(ps[k].frames[j]))
            && (j == |ps[k].frames| ==> i == Start(u, k) && s == Slots(u) && (i < |s| ==> s[i].Header?))
  {
    hide Slots;
    var u := ps[..k] + ps[k + 1..];
    if j < |ps[k].frames| {
      FrameSlotAt(ps[k].frames, j);
    } else {
      SlotsConcat(ps[..k], ps[k + 1..]);
      assert u[..k] == ps[..k];
      HeaderFirst(ps[k + 1..]);
    }
  }

  lemma HeaderFirst(ps: seq<Packet>)
    ensures Slots(ps) != [] ==> Slots(ps)[0].Header?
  {
  }

  lemma KeepNext(ps: seq<Packet>, k: nat, e: Event, j: nat)
    requires k < |ps| && j <= |ps[k].frames| && !Discards(e)
    ensures var u := Updated(ps, k, e); var s, i := Slots(u), Start(ps, k) + 1 + j;
            && i <= |s| && (j < |ps[k].frames| ==> i < |s| && s[i] == Frame(ps[k].frames[j]))
            && (j == |ps[k].frames| ==> i == Start(u, k + 1) && (i < |s| ==> s[i].Header?))
  {
    hide Slots;
    var u := Updated(ps, k, e);
    assert u[..k] == ps[..k];
    SlotsAt(u, k);
    if j < |ps[k].frames| {
      SlotOf(u, k, j + 1);
    } else {
      SlotOf(u, k, j);
      if k + 1 < |u| {
        SlotOf(u, k + 1, 0);
      } else {
        StartEnds(u);
      }
    }
  }

  lemma PartialDiscard(ps: seq<Packet>, k: nat, e: Event, j: nat)
    requires k < |ps| && j < |ps[k].frames| && Discards(e)
    ensures var s, i := Partial(ps, k, e, j), PartialAt(ps, k, e, j);
            i < |s| && Partial(ps, k, e, j + 1) == s[..i] + s[i + 1..]
  {
    hide Slots;
    var a, f, c := Slots(ps[..k]), FrameSlots(ps[k].frames), Slots(ps[k + 1..]);
    assert f[j..] == [f[j]] + f[j + 1..];
    var s := a + f[j..] + c;
    assert s[..|a|] == a && s[|a| + 1..] == f[j + 1..] + c;
  }

  lemma PartialStart(ps: seq<Packet>, k: nat, e: Event)
    requires k < |ps|
    ensures var s, i := Slots(ps[k := Packet(Settled(ps[k].info, e), ps[k].frames)]), Start(ps, k);
            i < |s| && Partial(ps, k, e, 0) == if Discards(e) then s[..i] + s[i + 1..] else s
  {
    hide Slots, FrameSlots, Settled;
    var ps' := ps[k := Packet(Settled(ps[k].info, e), ps[k].frames)];
    SlotsAt(ps', k);
    assert ps'[..k] == ps[..k] && ps'[k + 1..] == ps[k + 1..];
    HeadCut(Slots(ps[..k]), Header(ps'[k].info), FrameSlots(ps[k].frames), Slots(ps[k + 1..]));
  }

  lemma HeadCut(a: seq<Slot>, h: Slot, f: seq<Slot>, c: seq<Slot>)
    ensures var s := a + ([h] + f) + c; |a| < |s| && s[..|a|] + s[|a| + 1..] == a + f[0..] + c
  {
    var s := a + ([h] + f) + c;
    assert s[..|a|] == a && s[|a| + 1..] == f + c && f[0..] == f;
    Regroup(a, f, c);
  }

  lemma BytesGrow(ps: seq<Packet>, p: Packet)
    ensures Bytes(ps + [p]) == Bytes(ps) + p.info.ccBytes
  {
    BytesConcat(ps, [p]);
    assert Bytes([p]) == p.info.ccBytes;
  }

  lemma BytesSet(ps: seq<Packet>, k: nat, p: Packet)
    requires k < |ps|
    ensures Bytes(ps[k := p]) == Bytes(ps) - ps[k].info.ccBytes + p.info.ccBytes
  {
    BytesAt(ps, k);
    BytesAt(ps[k := p], k);
    assert ps[k := p][..k] == ps[..k] && ps[k := p][k + 1..] == ps[k + 1..];
  }

  /** What follows the header of packet `k` after `j` of its frames. */
  lemma SkipNext(ps: seq<Packet>, k: nat, j: nat)
    requires k < |ps| && j <= |ps[k].frames|
    ensures var s, i := Slots(ps), Start(ps, k) + 1 + j;
            && i <= |s| && (j < |ps[k].frames| ==> i < |s| && s[i] == Frame(ps[k].frames[j]))
            && (j == |ps[k].frames| ==>
                i == Start(ps, k + 1) && (i < |s| ==> s[i].Header?) && (k + 1 < |ps| <==> i < |s|))
  {
    hide Slots;
    SlotOf(ps, k, j);
    if j < |ps[k].frames| {
      SlotOf(ps, k, j + 1);
    } else if k + 1 < |ps| {
      SlotOf(ps, k + 1, 0);
    } else {
      StartEnds(ps);
    }
  }

  /** What committing a packet makes of its header. */
  function Committed(info: PacketInfo, bytes: nat): (r: PacketInfo)
  {
    if bytes != 0 then info.(ackEliciting := true, ccBytes := bytes, framesInFlight := true)
    else info.(framesInFlight := true)
  }

  /** Whether `n` callbacks succeed when the one numbered `failAt`, if any, is the first to fail. */
  predicate AllSucceed(n: nat, failAt: Option<nat>)
  {
    failAt.None? || n <= failAt.value
  }

  /** How many of `n` callbacks are invoked. */
  function FramesTold(n: nat, failAt: Option<nat>): (m: nat)
    ensures m <= n
  {
    if AllSucceed(n, failAt) then n else failAt.value + 1
  }

  /** The sentinel that an iterator has at the end. */
  const END_OF_ITERATION := PacketInfo(UINT64_MAX, 0.0, 0, false, false, 0)

  lemma UpdatedSize(ps: seq<Packet>, k: nat, e: Event)
    requires k < |ps|
    ensures |Updated(ps, k, e)| == if Discards(e) then |ps| - 1 else |ps|
  {
  }

  lemma StartBound(ps: seq<Packet>, k: nat)
    requires k <= |ps|
    ensures Start(ps, k) <= |Slots(ps)| && (k < |ps| <==> Start(ps, k) < |Slots(ps)|)
  {
    hide Slots;
    if k < |ps| {
      SlotOf(ps, k, 0);
    } else {
      StartEnds(ps);
    }
  }
}
