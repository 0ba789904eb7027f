/** What the frames of sent packets are told over whole runs, when no callback fails (lib/sentmap.c). */
module SentReports {
  import opened Basics
  import opened SentBlocks
  import opened SentPackets

  datatype Report = Report(id: nat, acked: bool)

  /** The packets in the map, all reports made so far, and all frames ever sent. */
  datatype Journal = Journal(packets: seq<Packet>, log: seq<Report>, sent: set<nat>)

  datatype Step = Send(info: PacketInfo, frames: seq<nat>) | Apply(k: nat, e: Event)

  /** Frames are sent once: what is retransmitted is recorded as a new frame. */
  ghost predicate Enabled(s: Journal, step: Step)
  {
    match step
    case Send(info, frames) => info.framesInFlight && NoRepeats(frames) && forall id :: id in frames ==> id !in s.sent
    case Apply(k, _) => k < |s.packets|
  }

  function Reports(ids: seq<nat>, acked: bool): (r: seq<Report>)
  {
    seq(|ids|, i requires 0 <= i < |ids| => Report(ids[i], acked))
  }

  ghost function Next(s: Journal, step: Step): (r: Journal)
    requires Enabled(s, step)
  {
    match step
    case Send(info, frames) => Journal(s.packets + [Packet(info, frames)], s.log, s.sent + set id | id in frames)
    case Apply(k, e) =>
      var p := s.packets[k];
      Journal(Updated(s.packets, k, e), s.log + (if Notifies(p.info, e) then Reports(p.frames, e == AckedEvent)
                                                 else []), s.sent)
  }

  /** What a frame was told, in order. */
  ghost function Heard(log: seq<Report>, id: nat): (h: seq<bool>)
  {
    if log == [] then []
    else Heard(log[..|log| - 1], id) + if log[|log| - 1].id == id then [log[|log| - 1].acked] else []
  }

  lemma {:induction false} HeardReports(log: seq<Report>, ids: seq<nat>, acked: bool, id: nat)
    requires NoRepeats(ids)
    ensures Heard(log + Reports(ids, acked), id) == Heard(log, id) + if id in ids then [acked] else []
    decreases |ids|
  {
    hide Heard, Reports;
    if ids == [] {
      NoReports(acked);
      assert log + [] == log;
    } else {
      var n := |ids| - 1;
      var before := log + Reports(ids[..n], acked);
      HeardReports(log, ids[..n], acked, id);
      LastReport(ids, acked);
      Regroup(log, Reports(ids[..n], acked), [Report(ids[n], acked)]);
      HeardOne(before, Report(ids[n], acked), id);
      LastOfIds(ids, id);
    }
  }

  lemma NoReports(acked: bool)
    ensures Reports([], acked) == []
  {
  }

  lemma LastReport(ids: seq<nat>, acked: bool)
    requires ids != []
    ensures var n := |ids| - 1; Reports(ids, acked) == Reports(ids[..n], acked) + [Report(ids[n], acked)]
  {
  }

  lemma HeardOne(log: seq<Report>, r: Report, id: nat)
    ensures Heard(log + [r], id) == Heard(log, id) + if r.id == id then [r.acked] else []
  {
    assert (log + [r])[..|log|] == log;
  }

  lemma LastOfIds(ids: seq<nat>, id: nat)
    requires ids != [] && NoRepeats(ids)
    ensures var n := |ids| - 1; (id in ids <==> id in ids[..n] || id == ids[n]) && (id in ids[..n] ==> id != ids[n])
  {
    var n := |ids| - 1;
    assert ids == ids[..n] + [ids[n]];
  }

  ghost predicate InMap(s: Journal, id: nat)
  {
    exists k :: 0 <= k < |s.packets| && id in s.packets[k].frames
  }

  ghost predicate Separate(ps: seq<Packet>)
  {
    && (forall k :: 0 <= k < |ps| ==> NoRepeats(ps[k].frames))
    && (forall k, l, id :: 0 <= k < l < |ps| && id in ps[k].frames ==> id !in ps[l].frames)
  }

  /** What a frame may have heard when it is gone: its loss, its ack, or its loss and then its ack. */
  predicate Fate(h: seq<bool>)
  {
    h == [false] || h == [true] || h == [false, true]
  }

  /** A frame in flight has heard nothing; one that is no longer in flight has heard of its loss; one that has left the
      map has heard of its loss, of its ack, or of both in this order. */
  ghost predicate Told(s: Journal)
  {
    && Separate(s.packets)
    && (forall k, id :: 0 <= k < |s.packets| && id in s.packets[k].frames ==>
          id in s.sent && Heard(s.log, id) == if s.packets[k].info.framesInFlight then [] else [false])
    && (forall id :: id in s.sent && !InMap(s, id) ==> Fate(Heard(s.log, id)))
    && (forall id :: id !in s.sent ==> Heard(s.log, id) == [])
  }

  lemma SendTold(s: Journal, info: PacketInfo, frames: seq<nat>)
    requires Told(s) && Enabled(s, Send(info, frames))
    ensures Told(Next(s, Send(info, frames)))
  {
    hide Heard;
    var s' := Next(s, Send(info, frames));
    assert s'.packets[|s.packets|].frames == frames;
    forall id | InMap(s, id) ensures InMap(s', id) {
      var k :| 0 <= k < |s.packets| && id in s.packets[k].frames;
      assert s'.packets[k] == s.packets[k];
    }
    assert forall id :: id in frames ==> InMap(s', id);
  }

  lemma ApplyHeard(s: Journal, k: nat, e: Event, id: nat)
    requires Told(s) && k < |s.packets|
    ensures var p := s.packets[k];
            Heard(Next(s, Apply(k, e)).log, id)
            == Heard(s.log, id) + if Notifies(p.info, e) && id in p.frames then [e == AckedEvent] else []
  {
    HeardReports(s.log, s.packets[k].frames, e == AckedEvent, id);
    assert s.log + [] == s.log;
  }

  /** Where a packet of the updated map was before. */
  lemma CameFrom(ps: seq<Packet>, k: nat, e: Event, l: nat)
    requires k < |ps| && l < |Updated(ps, k, e)|
    ensures var m := if Discards(e) && l >= k then l + 1 else l;
            && m < |ps| && Updated(ps, k, e)[l].frames == ps[m].frames && (m == k ==> !Discards(e))
            && Updated(ps, k, e)[l].info.framesInFlight == (ps[m].info.framesInFlight && m != k)
  {
  }

  lemma ApplySeparate(s: Journal, k: nat, e: Event)
    requires Separate(s.packets) && k < |s.packets|
    ensures Separate(Updated(s.packets, k, e))
  {
    hide Updated;
    var ps' := Updated(s.packets, k, e);
    forall l | 0 <= l < |ps'| ensures NoRepeats(ps'[l].frames) {
      CameFrom(s.packets, k, e, l);
    }
    forall l, m, id | 0 <= l < m < |ps'| && id in ps'[l].frames ensures id !in ps'[m].frames {
      CameFrom(s.packets, k, e, l);
      CameFrom(s.packets, k, e, m);
    }
  }

  lemma ApplyKept(s: Journal, k: nat, e: Event, l: nat, id: nat)
    requires Told(s) && k < |s.packets| && l < |Updated(s.packets, k, e)| && id in Updated(s.packets, k, e)[l].frames
    ensures var s' := Next(s, Apply(k, e));
            id in s'.sent && Heard(s'.log, id) == if s'.packets[l].info.framesInFlight then [] else [false]
  {
    hide Heard, Updated;
    CameFrom(s.packets, k, e, l);
    ApplyHeard(s, k, e, id);
    var m := if Discards(e) && l >= k then l + 1 else l;
    assert id in s.packets[m].frames;
    assert m != k ==> id !in s.packets[k].frames;
  }

  lemma ApplyGone(s: Journal, k: nat, e: Event, id: nat)
    requires Told(s) && k < |s.packets| && id in s.sent && !InMap(Next(s, Apply(k, e)), id)
    ensures Fate(Heard(Next(s, Apply(k, e)).log, id))
  {
    hide Heard;
    ApplyHeard(s, k, e, id);
    if id in s.packets[k].frames {
      assert InMap(s, id);
      StaysIn(s, k, e, id);
      assert [] + [true] == [true] && [false] + [true] == [false, true] && [] + [false] == [false]
          && [false] + [] == [false];
    } else {
      StaysIn(s, k, e, id);
      assert Heard(s.log, id) + [] == Heard(s.log, id);
    }
  }

  lemma StaysIn(s: Journal, k: nat, e: Event, id: nat)
    requires k < |s.packets|
    ensures InMap(s, id) && (id !in s.packets[k].frames || !Discards(e)) ==> InMap(Next(s, Apply(k, e)), id)
  {
    var s' := Next(s, Apply(k, e));
    if InMap(s, id) && (id !in s.packets[k].frames || !Discards(e)) {
      var m :| 0 <= m < |s.packets| && id in s.packets[m].frames;
      var l := if Discards(e) && m > k then m - 1 else m;
      assert s'.packets[l].frames == s.packets[m].frames;
    }
  }

  lemma ApplyTold(s: Journal, k: nat, e: Event)
    requires Told(s) && k < |s.packets|
    ensures Told(Next(s, Apply(k, e)))
  {
    hide Heard, Updated;
    var s' := Next(s, Apply(k, e));
    ApplySeparate(s, k, e);
    forall l, id | 0 <= l < |s'.packets| && id in s'.packets[l].frames
      ensures id in s'.sent && Heard(s'.log, id) == if s'.packets[l].info.framesInFlight then [] else [false]
    {
      ApplyKept(s, k, e, l, id);
    }
    forall id | id in s'.sent && !InMap(s', id) ensures Fate(Heard(s'.log, id)) {
      ApplyGone(s, k, e, id);
    }
    forall id | id !in s'.sent ensures Heard(s'.log, id) == [] {
      ApplyHeard(s, k, e, id);
    }
  }

  ghost predicate Run(trace: seq<Journal>, steps: seq<Step>)
  {
    && |trace| == |steps| + 1 && trace[0] == Journal([], [], {})
    && forall k :: 0 <= k < |steps| ==> Enabled(trace[k], steps[k]) && trace[k + 1] == Next(trace[k], steps[k])
  }

  lemma {:induction false} AlwaysTold(trace: seq<Journal>, steps: seq<Step>, n: nat)
    requires Run(trace, steps) && n < |trace|
    ensures Told(trace[n])
  {
    if n > 0 {
      AlwaysTold(trace, steps, n - 1);
      match steps[n - 1]
      case Send(info, frames) => SendTold(trace[n - 1], info, frames);
      case Apply(k, e) => ApplyTold(trace[n - 1], k, e);
    }
  }

  /** In every run, a frame hears of at most one loss and then at most one ack, nothing after the ack, and never leaves
      the map without having heard anything. */
  lemma ReportedOnce(trace: seq<Journal>, steps: seq<Step>, n: nat, id: nat)
    requires Run(trace, steps) && n < |trace|
    ensures Heard(trace[n].log, id) == [] || Fate(Heard(trace[n].log, id))
    ensures id in trace[n].sent && !InMap(trace[n], id) ==> Heard(trace[n].log, id) != []
  {
    AlwaysTold(trace, steps, n);
    if InMap(trace[n], id) {
      var k :| 0 <= k < |trace[n].packets| && id in trace[n].packets[k].frames;
      assert id in trace[n].sent;
    }
  }
}
