/** One sender, one receiver, and a network that drops, reorders and duplicates frames: what the receiving application
    reads is what the sending application wrote (lib/quicly.c, lib/sendstate.c, lib/recvstate.c, lib/streambuf.c). */
module StreamRuns {
  import opened Basics
  import opened Ranges
  import opened SendStates
  import opened StreamBufs
  import opened SendRuns
  import opened RecvStates

  /** A frame on the wire: a STREAM frame, or a reset when the marker says so. */
  datatype Packet = Packet(sent: Sent, data: seq<Byte>, reliable: nat, error: nat)

  /** `buf` is the send buffer, from which `base` bytes have been shifted out. Whatever was put on the network stays in
      `net`, from where it is delivered any number of times, in any order, or never; `seen` is what reached the
      receiver. */
  datatype World = World(snd: Sender, buf: seq<Byte>, base: nat, net: set<Packet>, seen: set<Sent>,
                         rcv: RecvState, rbuf: seq<Byte>, read: seq<Byte>)

  datatype Event =
    | Act(step: Step)
    | Deliver(p: Packet, rbuf: seq<Byte>)
    | Consume(n: nat)

  function Genesis(): (w: World)
  {
    World(Start(), [], 0, {}, {}, RecvInit(), [], [])
  }

  predicate IsReset(m: Marker)
  {
    m == ResetAt || m == Reset
  }

  /** The packet that carries a frame. The bytes are copied from the send buffer at the offset past the contiguous acked
      prefix, as quicly_send_stream computes it. */
  function PacketFor(w: World, f: Sent): (p: Packet)
    requires w.snd.st.acked != []
  {
    var at := f.start - w.snd.st.acked[0].end;
    Packet(f, if f.start < f.end && 0 <= at && at + f.end - f.start <= |w.buf| then w.buf[at..at + f.end - f.start]
           else [],
           w.snd.st.reliableSize, w.snd.st.appError)
  }

  /** How far an ack lets the send buffer be shifted. */
  function ShiftOf(w: World, step: Step): (n: int)
    requires Enabled(w.snd, step)
  {
    if step.Ack? then
      var f := w.snd.frames[step.i].sent;
      if Union(w.snd.st.acked, f.start, f.end) == [] then 0 else BytesToShift(w.snd.st, f)
    else 0
  }

  /** The part of a STREAM frame that goes to the receive buffer. */
  function Payload(r: RecvState, p: Packet): (src: seq<Byte>)
  {
    var a := Accepted(r, p.sent.start, |p.data|);
    if p.sent.start <= a.start && a.end <= p.sent.start + |p.data|
    then p.data[a.start - p.sent.start..a.end - p.sent.start]
    else []
  }

  ghost predicate Buffered(r: RecvState, rbuf: seq<Byte>, rbuf': seq<Byte>, p: Packet)
  {
    var a := Accepted(r, p.sent.start, |p.data|);
    if a.start < a.end then r.dataOff <= a.start && Overlaid(rbuf, rbuf', a.start - r.dataOff, Payload(r, p))
    else rbuf' == rbuf
  }

  function Receive(r: RecvState, p: Packet): (r': RecvState)
    requires r.received != []
  {
    if RecvComplete(r) then r
    else if IsReset(p.sent.marker) then WasReset(r, p.reliable, p.error)
    else Updated(r, p.sent.start, |p.data|, p.sent.marker == Fin)
  }

  /** Whether the receiver closes the connection because of the frame. */
  predicate Rejected(r: RecvState, p: Packet)
    requires r.received != []
  {
    && !RecvComplete(r)
    && if IsReset(p.sent.marker) then ResetError(r, p.sent.end, p.error) != NoError
       else ContradictsEnd(r, p.sent.start + |p.data|, p.sent.marker == Fin)
  }

  ghost predicate Allowed(w: World, e: Event)
  {
    w.snd.st.acked != [] && w.rcv.received != [] &&
    match e
    case Act(step) =>
      && Enabled(w.snd, step)
      && (step.Ack? ==> w.snd.frames[step.i].sent in w.seen && 0 <= ShiftOf(w, step) <= |w.buf|)
    case Deliver(p, rbuf) =>
      && p in w.net && !Rejected(w.rcv, p)
      && if RecvComplete(w.rcv) || IsReset(p.sent.marker) then rbuf == w.rbuf else Buffered(w.rcv, w.rbuf, rbuf, p)
    case Consume(n) => n <= BytesAvailable(w.rcv) && n <= |w.rbuf|
  }

  function AfterAct(w: World, step: Step): (w': World)
    requires w.snd.st.acked != [] && Enabled(w.snd, step) && 0 <= ShiftOf(w, step) <= |w.buf|
  {
    var snd := Next(w.snd, step);
    var net := if Emitted(w.snd, step).Some? then w.net + {PacketFor(w, Emitted(w.snd, step).value)} else w.net;
    var n := ShiftOf(w, step);
    w.(snd := snd, net := net, base := w.base + n, buf := w.buf[n..] + if step.Write? then step.data else [])
  }

  ghost function After(w: World, e: Event): (w': World)
    requires Allowed(w, e)
  {
    match e
    case Act(step) => AfterAct(w, step)
    case Deliver(p, rbuf) => w.(rcv := Receive(w.rcv, p), rbuf := rbuf, seen := w.seen + {p.sent})
    case Consume(n) => w.(rcv := w.rcv.(dataOff := w.rcv.dataOff + n), rbuf := w.rbuf[n..],
                          read := w.read + w.rbuf[..n])
  }

  // ----- the invariant -----

  /** The send buffer has what was written, from the contiguous acked prefix on; a reset may leave it behind, but then
      there is nothing left to send. */
  ghost predicate BufOk(w: World)
  {
    var st := w.snd.st;
    && w.base + |w.buf| == |w.snd.written| && w.buf == w.snd.written[w.base..]
    && st.acked != [] && w.base <= st.acked[0].end && (w.base == st.acked[0].end || st.acked[0].end == st.finalSize)
  }

  ghost predicate PacketOk(s: Sender, p: Packet)
  {
    && p.sent.start <= p.sent.end <= s.st.sizeInflight <= |s.written| && p.data == s.written[p.sent.start..p.sent.end]
    && (p.sent.marker != NoMarker ==> s.announced == Some(p.sent.end))
    && (p.sent.marker == Fin ==> p.sent.end == |s.written|)
    && (IsReset(p.sent.marker) ==>
        p.error == s.st.appError != UINT64_MAX && s.st.reliableSize <= p.reliable <= s.st.finalSize)
  }

  ghost predicate NetOk(w: World)
  {
    forall p :: p in w.net ==> PacketOk(w.snd, p)
  }

  ghost predicate EndOk(s: Sender, r: RecvState)
  {
    && (r.eos != UINT64_MAX ==> s.announced.Some? && r.dataOff <= r.eos <= s.announced.value)
    && (r.eos != UINT64_MAX && r.appError == UINT64_MAX ==> r.eos == s.announced.value == |s.written|)
    && (r.appError != UINT64_MAX ==> r.eos != UINT64_MAX && r.appError == s.st.appError && s.st.reliableSize <= r.eos)
  }

  ghost predicate RcvShape(s: Sender, r: RecvState)
  {
    && Anchored(r.received) && r.dataOff <= r.received[0].end
    && (forall x: int :: Covers(r.received, x) ==> x < s.st.sizeInflight)
  }

  ghost predicate RbufOk(written: seq<Byte>, r: RecvState, rbuf: seq<Byte>)
  {
    forall x: int :: r.dataOff <= x < |written| && Covers(r.received, x) ==>
                     x - r.dataOff < |rbuf| && rbuf[x - r.dataOff] == written[x]
  }

  ghost predicate ReadOk(w: World)
  {
    w.rcv.dataOff <= |w.snd.written| && w.read == w.snd.written[..w.rcv.dataOff]
  }

  ghost predicate FrameSeen(r: RecvState, f: Sent)
  {
    (forall x: int :: f.start <= x < f.end ==> Covers(r.received, x)) && (f.marker == Fin ==> r.eos != UINT64_MAX)
  }

  /** Unless the stream was reset, what reached the receiver has been received, and only that is acked. */
  ghost predicate SeenOk(w: World)
  {
    w.snd.st.appError == UINT64_MAX ==>
      && (forall f :: f in w.seen ==> FrameSeen(w.rcv, f))
      && (forall x: int :: Covers(w.snd.st.acked, x) ==> Covers(w.rcv.received, x))
      && (w.snd.st.eos == Delivered ==> w.rcv.eos != UINT64_MAX)
  }

  ghost predicate Consistent(w: World)
  {
    && Sound(w.snd) && BufOk(w) && NetOk(w) && RcvShape(w.snd, w.rcv) && EndOk(w.snd, w.rcv)
    && RbufOk(w.snd.written, w.rcv, w.rbuf) && ReadOk(w) && SeenOk(w)
  }

  lemma GenesisConsistent()
    ensures Consistent(Genesis())
  {
    hide Sound;
    StartSound();
    NothingCovered();
  }

  lemma NothingCovered()
    ensures Separated([Range(0, 0)]) && forall x: int :: !Covers([Range(0, 0)], x)
  {
  }

  // ----- what the sender does -----

  /** What no step of the sender takes back. */
  ghost predicate Grows(s: Sender, s': Sender)
  {
    && |s.written| <= |s'.written| && s'.written[..|s.written|] == s.written && s.st.sizeInflight <= s'.st.sizeInflight
    && (s.announced.Some? ==>
          s'.announced == s.announced && s'.st.finalSize == s.st.finalSize && s'.written == s.written)
    && (s.st.appError != UINT64_MAX ==> s'.st.appError == s.st.appError && s'.st.reliableSize <= s.st.reliableSize)
  }

  lemma StepGrows(s: Sender, step: Step)
    requires Sound(s) && Enabled(s, step)
    ensures Grows(s, Next(s, step))
  {
    hide AckedBelow, Apart, PendingBelow, Whole, Waiting, Gapless, FramesFit, MarkerCarried, Union, Difference,
         AddMissing, Anchored, Canonical, Covers;
    StepSound(s, step);
  }

  lemma PacketStays(s: Sender, s': Sender, p: Packet)
    requires PacketOk(s, p) && Grows(s, s') && Sound(s) && Sound(s')
    ensures PacketOk(s', p)
  {
    hide AckedBelow, Apart, PendingBelow, Whole, Waiting, Gapless, FramesFit, MarkerCarried, Retired;
    assert s'.written[p.sent.start..p.sent.end] == s'.written[..|s.written|][p.sent.start..p.sent.end];
  }

  lemma NewPacketOk(w: World, step: Step)
    requires Sound(w.snd) && BufOk(w) && Enabled(w.snd, step) && Emitted(w.snd, step).Some?
    ensures PacketOk(Next(w.snd, step), PacketFor(w, Emitted(w.snd, step).value))
  {
    StepSound(w.snd, step);
    var f := Emitted(w.snd, step).value;
    NewPacketSpan(w.snd, step, f);
    NewPacketMarker(w.snd, step, f);
    if step.SendData? {
      DataInBuffer(w, step.len);
    }
  }

  lemma NewPacketSpan(s: Sender, step: Step, f: Sent)
    requires Sound(s) && Enabled(s, step) && Emitted(s, step) == Some(f)
    ensures f.start <= f.end <= Next(s, step).st.sizeInflight <= |s.written| && Next(s, step).written == s.written
    ensures step.SendMarker? ==> f.start == f.end
  {
    StepSound(s, step);
    hide AckedBelow, Apart, PendingBelow, Whole, Waiting, Gapless, FramesFit, MarkerCarried, Retired, Union, Difference;
    if step.SendMarker? {
      NothingPending(s);
    }
  }

  lemma NewPacketMarker(s: Sender, step: Step, f: Sent)
    requires Sound(s) && Enabled(s, step) && Emitted(s, step) == Some(f)
    ensures var s' := Next(s, step);
            && (f.marker != NoMarker ==> s'.announced == Some(f.end))
            && (f.marker == Fin ==> f.end == |s.written|)
            && (IsReset(f.marker) ==> s'.st.appError == s.st.appError != UINT64_MAX
                                      && s'.st.reliableSize == s.st.reliableSize <= s'.st.finalSize)
  {
    StepSound(s, step);
    hide AckedBelow, Apart, PendingBelow, Whole, Waiting, Gapless, FramesFit, MarkerCarried, Union, Difference;
    assert f.marker != NoMarker ==> Next(s, step).announced.Some?;
  }

  /** The send buffer holds the bytes that the frame is to carry. */
  lemma DataInBuffer(w: World, len: nat)
    requires Sound(w.snd) && BufOk(w) && w.snd.st.pending != [] && 0 < len
    requires w.snd.st.pending[0].start + len <= Min(w.snd.st.pending[0].end, |w.snd.written|)
    ensures var f := DataFrame(w.snd.st, len);
            w.base == w.snd.st.acked[0].end <= f.start && PacketFor(w, f).data == w.snd.written[f.start..f.end]
  {
    hide Whole, Waiting, Gapless, FramesFit, MarkerCarried, Retired, FinalKept;
    var st := w.snd.st;
    AnchoredHead(st.acked);
    var off := st.pending[0].start;
    assert Covers(st.pending, off);
    assert st.acked[0].end <= off;
    assert off < st.finalSize;
    assert w.base == st.acked[0].end;
    var at := off - w.base;
    assert w.snd.written[w.base..][at..at + len] == w.snd.written[off..off + len];
  }

  lemma ActNet(w: World, step: Step)
    requires Consistent(w) && Allowed(w, Act(step))
    ensures NetOk(After(w, Act(step)))
  {
    hide Sound, PacketOk;
    var s' := Next(w.snd, step);
    StepSound(w.snd, step);
    StepGrows(w.snd, step);
    if Emitted(w.snd, step).Some? {
      NewPacketOk(w, step);
    }
    forall p | p in w.net ensures PacketOk(s', p) {
      PacketStays(w.snd, s', p);
    }
  }

  /** What an ack makes of the contiguous prefix. */
  lemma AckedHead(s: Sender, i: nat)
    requires Sound(s) && Enabled(s, Ack(i))
    ensures var st, st' := s.st, Next(s, Ack(i)).st; var f := s.frames[i].sent;
            && Union(st.acked, f.start, f.end) == st'.acked != [] && st'.finalSize == st.finalSize
            && BytesToShift(st, f) == st'.acked[0].end - st.acked[0].end >= 0 && st'.acked[0].end <= st.sizeInflight
            && (st.acked[0].end == st.finalSize ==> st'.acked[0].end == st.finalSize)
  {
    AckSound(s, i);
    hide Whole, Waiting, Gapless, FramesFit, MarkerCarried, Retired, FinalKept, Union, Difference, Covers, Separated;
    var st, st', f := s.st, Next(s, Ack(i)).st, s.frames[i].sent;
    AnchoredHead(st.acked);
    AnchoredHead(st'.acked);
    UnionCovering(st.acked, f.start, f.end);
    assert st'.acked[0].end > 0 ==> Covers(st'.acked, st'.acked[0].end - 1);
    HeadKept(st.acked, st'.acked);
  }

  /** What a reset makes of the contiguous prefix: nothing, or the whole stream. */
  lemma ResetHead(s: Sender, error: nat, reliable: nat)
    requires Sound(s) && reliable <= ResetSize(s.st, reliable)
    requires Sound(s.(st := ResetTo(s.st, error, reliable)))
    ensures var st, st' := s.st, ResetTo(s.st, error, reliable);
            && st.acked != [] && st'.acked != [] && st.acked[0].end <= st'.acked[0].end
            && (st'.acked[0].end == st.acked[0].end || st'.acked[0].end == st'.finalSize)
            && (st.acked[0].end == st.finalSize ==> st'.acked[0].end == st'.finalSize)
  {
    hide Whole, Waiting, Gapless, FramesFit, MarkerCarried, Retired, FinalKept, Union, Difference, Covers, Separated;
    var st, st' := s.st, ResetTo(s.st, error, reliable);
    var n := st'.finalSize;
    AnchoredHead(st.acked);
    AnchoredHead(st'.acked);
    UnionCovering(st.acked, reliable, n);
    assert st'.acked[0].end > 0 ==> Covers(st'.acked, st'.acked[0].end - 1);
    assert st.acked[0].end > 0 ==> Covers(st.acked, st.acked[0].end - 1);
    assert Covers(st'.acked, st.acked[0].end) <==> reliable <= st.acked[0].end < n;
    assert Covers(st'.acked, st'.acked[0].end) <==>
          Covers(st.acked, st'.acked[0].end) || reliable <= st'.acked[0].end < n;
  }

  lemma ActBuf(w: World, step: Step)
    requires Consistent(w) && Allowed(w, Act(step))
    ensures BufOk(After(w, Act(step)))
  {
    hide NetOk, RcvShape, EndOk, RbufOk, ReadOk, SeenOk, Union, Difference, AddMissing, Sound;
    StepSound(w.snd, step);
    match step
    case Ack(i) => AckedHead(w.snd, i);
    case AbortAt(error, reliable) => ResetHead(w.snd, error, reliable);
    case Abort(error) => ResetHead(w.snd, error, 0);
    case Close => NotAllAcked(w.snd);
    case _ =>
  }

  lemma NotAllAcked(s: Sender)
    requires Sound(s) && IsOpen(s.st)
    ensures s.st.acked[0].end < s.st.finalSize
  {
    AnchoredHead(s.st.acked);
    assert s.st.acked[0].end > 0 ==> Covers(s.st.acked, s.st.acked[0].end - 1);
  }

  lemma ActReceiver(w: World, step: Step)
    requires Consistent(w) && Allowed(w, Act(step))
    ensures var w' := After(w, Act(step));
            && RcvShape(w'.snd, w'.rcv) && EndOk(w'.snd, w'.rcv) && RbufOk(w'.snd.written, w'.rcv, w'.rbuf)
            && ReadOk(w')
  {
    hide NetOk, SeenOk, Union, Difference, AddMissing, Sound, BufOk, Covers, Separated, Next;
    var s, s', r := w.snd, Next(w.snd, step), w.rcv;
    StepGrows(s, step);
    SizeWritten(s);
    assert RcvShape(s', r);
    assert EndOk(s', r);
    forall x: int | r.dataOff <= x < |s'.written| && Covers(r.received, x)
      ensures x - r.dataOff < |w.rbuf| && w.rbuf[x - r.dataOff] == s'.written[x]
    {
      assert x < |s.written|;
      assert s'.written[..|s.written|][x] == s'.written[x];
    }
    assert s'.written[..r.dataOff] == s'.written[..|s.written|][..r.dataOff];
  }

  lemma SizeWritten(s: Sender)
    requires Sound(s)
    ensures s.st.sizeInflight <= |s.written|
  {
  }

  lemma ActSeen(w: World, step: Step)
    requires Consistent(w) && Allowed(w, Act(step))
    ensures SeenOk(After(w, Act(step)))
  {
    hide NetOk, Union, Difference, AddMissing, Sound, BufOk, Covers, Separated, FrameSeen;
    match step
    case Ack(i) => AckSeen(w, i);
    case _ => StepGrows(w.snd, step);
  }

  lemma AckSeen(w: World, i: nat)
    requires Consistent(w) && Allowed(w, Act(Ack(i)))
    ensures SeenOk(After(w, Act(Ack(i))))
  {
    hide NetOk, Union, Difference, BufOk, Covers, Separated, Whole, Waiting, Gapless, Apart, AckedBelow, PendingBelow,
         Without;
    var st, f := w.snd.st, w.snd.frames[i].sent;
    UnionCovering(st.acked, f.start, f.end);
    assert st.appError == UINT64_MAX ==> FrameSeen(w.rcv, f);
  }

  lemma ActConsistent(w: World, step: Step)
    requires Consistent(w) && Allowed(w, Act(step))
    ensures Consistent(After(w, Act(step)))
  {
    hide Sound, BufOk, NetOk, RcvShape, EndOk, RbufOk, ReadOk, SeenOk, Next, Enabled;
    StepSound(w.snd, step);
    ActBuf(w, step);
    ActNet(w, step);
    ActReceiver(w, step);
    ActSeen(w, step);
  }

  // ----- what the receiver does -----

  /** An honest sender is never found in error. */
  lemma NeverRejected(w: World, p: Packet)
    requires Consistent(w) && p in w.net
    ensures w.rcv.received != [] && !Rejected(w.rcv, p)
  {
    hide Sound, BufOk, RbufOk, ReadOk, SeenOk, Covers, Separated;
    assert PacketOk(w.snd, p);
    LastReceived(w.snd, w.rcv);
    AnnouncedSize(w.snd);
  }

  lemma LastReceived(s: Sender, r: RecvState)
    requires RcvShape(s, r)
    ensures LastEnd(r.received) <= s.st.sizeInflight
  {
    var n := |r.received| - 1;
    assert r.received[n].start < r.received[n].end ==> Covers(r.received, r.received[n].end - 1);
    assert n == 0 || r.received[n].start < r.received[n].end;
  }

  lemma AnnouncedSize(s: Sender)
    requires Sound(s)
    ensures s.announced.Some? ==> s.st.finalSize == s.st.sizeInflight == s.announced.value <= |s.written| < UINT64_MAX
    ensures s.st.sizeInflight <= |s.written| < UINT64_MAX
  {
  }

  /** A STREAM frame from an honest sender is accepted but for what was read already and what a reset has cut off. */
  lemma AcceptedPart(w: World, p: Packet)
    requires Consistent(w) && p in w.net && !IsReset(p.sent.marker)
    ensures var a, f := Accepted(w.rcv, p.sent.start, |p.data|), p.sent;
            && f.start <= a.start <= a.end && |p.data| == f.end - f.start
            && (a.start < a.end ==> w.rcv.dataOff <= a.start && a.end <= f.end)
            && (w.rcv.appError == UINT64_MAX ==>
                  f.end <= w.rcv.dataOff || a == Range(Max(f.start, w.rcv.dataOff), f.end))
  {
    hide Sound, BufOk, RbufOk, ReadOk, SeenOk, Covers, Separated, RcvShape;
    assert PacketOk(w.snd, p);
    AnnouncedSize(w.snd);
  }

  lemma StreamReceived(w: World, p: Packet, rbuf: seq<Byte>)
    requires Consistent(w) && Allowed(w, Deliver(p, rbuf)) && !RecvComplete(w.rcv) && !IsReset(p.sent.marker)
    ensures var r := Receive(w.rcv, p);
            RcvShape(w.snd, r) && EndOk(w.snd, r) && RbufOk(w.snd.written, r, rbuf)
  {
    hide Sound, BufOk, ReadOk, SeenOk, Covers, Separated, Union, RbufOk;
    var a, r := Accepted(w.rcv, p.sent.start, |p.data|), Receive(w.rcv, p);
    AcceptedPart(w, p);
    assert PacketOk(w.snd, p);
    AnnouncedSize(w.snd);
    AnchoredUnion(w.rcv.received, a.start, a.end);
    UnionCovering(w.rcv.received, a.start, a.end);
    HeadKept(w.rcv.received, r.received);
    LastReceived(w.snd, w.rcv);
    HeadBelow(w.rcv.received);
    StreamBuffered(w, p, rbuf);
  }

  lemma HeadBelow(rs: seq<Range>)
    requires Anchored(rs)
    ensures rs[0].end <= LastEnd(rs)
  {
    assert |rs| > 1 ==> rs[0].end < rs[|rs| - 1].start;
  }

  lemma HeadKept(rs: seq<Range>, rs': seq<Range>)
    requires Anchored(rs) && Anchored(rs') && forall x: int :: Covers(rs, x) ==> Covers(rs', x)
    ensures rs[0].end <= rs'[0].end
  {
    hide Covers, Separated;
    AnchoredHead(rs);
    AnchoredHead(rs');
  }

  lemma StreamBuffered(w: World, p: Packet, rbuf: seq<Byte>)
    requires Consistent(w) && Allowed(w, Deliver(p, rbuf)) && !RecvComplete(w.rcv) && !IsReset(p.sent.marker)
    ensures RbufOk(w.snd.written, Receive(w.rcv, p), rbuf)
  {
    hide Sound, BufOk, ReadOk, SeenOk, Covers, Separated, Union, RcvShape, EndOk, Accepted, Payload, Overlaid, PacketOk;
    var r, f, written := w.rcv, p.sent, w.snd.written;
    var a := Accepted(r, f.start, |p.data|);
    AcceptedPart(w, p);
    PacketData(w, p);
    KnownReceived(w);
    UnionCovering(r.received, a.start, a.end);
    forall x: int | r.dataOff <= x < |written| && Covers(Union(r.received, a.start, a.end), x)
      ensures x - r.dataOff < |rbuf| && rbuf[x - r.dataOff] == written[x]
    {
      if a.start < a.end {
        PayloadIs(r, p, written);
        OverlaidAt(w.rbuf, rbuf, a.start - r.dataOff, Payload(r, p), x - r.dataOff);
      }
    }
  }

  lemma PacketData(w: World, p: Packet)
    requires Consistent(w) && p in w.net
    ensures p.sent.start <= p.sent.end <= |w.snd.written| && p.data == w.snd.written[p.sent.start..p.sent.end]
  {
    hide Sound, BufOk, RcvShape, EndOk, RbufOk, ReadOk, SeenOk;
    assert PacketOk(w.snd, p);
  }

  lemma PayloadIs(r: RecvState, p: Packet, written: seq<Byte>)
    requires p.sent.start <= p.sent.end <= |written| && p.data == written[p.sent.start..p.sent.end]
    requires var a := Accepted(r, p.sent.start, |p.data|); p.sent.start <= a.start && a.end <= p.sent.end
    ensures var a := Accepted(r, p.sent.start, |p.data|); Payload(r, p) == written[a.start..a.end]
  {
  }

  lemma OverlaidAt(b: seq<Byte>, b': seq<Byte>, off: nat, src: seq<Byte>, i: nat)
    requires Overlaid(b, b', off, src)
    ensures off <= i < off + |src| ==> i < |b'| && b'[i] == src[i - off]
    ensures !(off <= i < off + |src|) && i < |b| ==> i < |b'| && b'[i] == b[i]
  {
    if off <= i < off + |src| {
      assert b'[off..off + |src|][i - off] == b'[i];
    }
  }

  lemma KnownReceived(w: World)
    requires Consistent(w)
    ensures Separated(w.rcv.received)
  {
  }

  lemma ResetReceived(w: World, p: Packet)
    requires Consistent(w) && p in w.net && !Rejected(w.rcv, p) && !RecvComplete(w.rcv) && IsReset(p.sent.marker)
    ensures var r := Receive(w.rcv, p);
            && RcvShape(w.snd, r) && EndOk(w.snd, r) && r.received == w.rcv.received && r.dataOff == w.rcv.dataOff
            && w.snd.st.appError != UINT64_MAX
  {
    hide Sound, BufOk, ReadOk, SeenOk, Covers, Separated, RbufOk;
    assert PacketOk(w.snd, p);
    AnnouncedSize(w.snd);
    LastReceived(w.snd, w.rcv);
    HeadBelow(w.rcv.received);
  }

  /** Unless the stream is reset, all the bytes of a delivered frame have been received. */
  lemma DeliveredSeen(w: World, p: Packet)
    requires Consistent(w) && p in w.net && !Rejected(w.rcv, p) && w.snd.st.appError == UINT64_MAX
    ensures FrameSeen(Receive(w.rcv, p), p.sent)
  {
    hide Sound, BufOk, ReadOk, Covers, Separated, Union, RbufOk;
    var r := w.rcv;
    assert PacketOk(w.snd, p);
    AnnouncedSize(w.snd);
    AnchoredHead(r.received);
    if RecvComplete(r) {
      HeadBelow(r.received);
      LastReceived(w.snd, r);
    } else {
      var a := Accepted(r, p.sent.start, |p.data|);
      AcceptedPart(w, p);
      UnionCovering(r.received, a.start, a.end);
    }
  }

  lemma DeliverSeenOk(w: World, p: Packet, rbuf: seq<Byte>)
    requires Consistent(w) && Allowed(w, Deliver(p, rbuf))
    ensures SeenOk(After(w, Deliver(p, rbuf)))
  {
    hide Sound, BufOk, ReadOk, Covers, Separated, Union, RbufOk, NetOk, EndOk;
    if w.snd.st.appError == UINT64_MAX {
      DeliveredSeen(w, p);
      ReceivedGrows(w, p);
    }
  }

  lemma ReceivedGrows(w: World, p: Packet)
    requires Consistent(w) && p in w.net && !Rejected(w.rcv, p)
    ensures forall x: int :: Covers(w.rcv.received, x) ==> Covers(Receive(w.rcv, p).received, x)
    ensures w.rcv.eos != UINT64_MAX && w.snd.st.appError == UINT64_MAX ==> Receive(w.rcv, p).eos != UINT64_MAX
  {
    hide Sound, BufOk, ReadOk, Covers, Separated, Union, RbufOk;
    assert PacketOk(w.snd, p);
    KnownReceived(w);
    var a := Accepted(w.rcv, p.sent.start, |p.data|);
    UnionCovering(w.rcv.received, a.start, a.end);
  }

  lemma DeliverConsistent(w: World, p: Packet, rbuf: seq<Byte>)
    requires Consistent(w) && Allowed(w, Deliver(p, rbuf))
    ensures Consistent(After(w, Deliver(p, rbuf)))
  {
    hide Sound, BufOk, NetOk, RcvShape, EndOk, SeenOk, Covers, Union, Buffered, PacketOk;
    var w' := After(w, Deliver(p, rbuf));
    if !RecvComplete(w.rcv) {
      if IsReset(p.sent.marker) {
        ResetReceived(w, p);
      } else {
        StreamReceived(w, p, rbuf);
      }
    }
    DeliverSeenOk(w, p, rbuf);
    NetSame(w, w');
  }

  lemma NetSame(w: World, w': World)
    requires NetOk(w) && BufOk(w) && w'.net == w.net && w'.snd == w.snd && w'.buf == w.buf && w'.base == w.base
    ensures NetOk(w') && BufOk(w')
  {
  }

  /** What the application may read is in the buffer. */
  lemma AvailableBuffered(w: World, n: nat)
    requires Consistent(w) && n <= BytesAvailable(w.rcv)
    ensures w.rcv.dataOff + n <= w.rcv.received[0].end <= |w.snd.written| && n <= |w.rbuf|
    ensures w.rbuf[..n] == w.snd.written[w.rcv.dataOff..w.rcv.dataOff + n]
  {
    hide Sound, BufOk, NetOk, SeenOk, Covers, EndOk;
    var r := w.rcv;
    AnchoredHead(r.received);
    HeadBelow(r.received);
    LastReceived(w.snd, r);
    AnnouncedSize(w.snd);
    assert n > 0 ==> Covers(r.received, r.dataOff + n - 1);
    forall i | 0 <= i < n ensures i < |w.rbuf| && w.rbuf[i] == w.snd.written[r.dataOff + i] {
      assert Covers(r.received, r.dataOff + i);
    }
  }

  lemma ConsumeConsistent(w: World, n: nat)
    requires Consistent(w) && Allowed(w, Consume(n))
    ensures Consistent(After(w, Consume(n)))
  {
    hide Sound, BufOk, NetOk, Covers, Separated, FrameSeen;
    var w', r := After(w, Consume(n)), w.rcv;
    AvailableBuffered(w, n);
    NetSame(w, w');
    assert w.snd.written[..r.dataOff] + w.snd.written[r.dataOff..r.dataOff + n] == w.snd.written[..r.dataOff + n];
    assert RbufOk(w'.snd.written, w'.rcv, w'.rbuf);
    assert EndOk(w'.snd, w'.rcv);
    FramesStillSeen(w, w');
  }

  lemma FramesStillSeen(w: World, w': World)
    requires SeenOk(w) && w'.snd == w.snd && w'.seen == w.seen && w'.rcv.received == w.rcv.received
             && w'.rcv.eos == w.rcv.eos
    ensures SeenOk(w')
  {
    assert w.snd.st.appError == UINT64_MAX ==> forall f :: f in w.seen ==> FrameSeen(w.rcv, f);
  }

  // ----- whole runs -----

  lemma EventConsistent(w: World, e: Event)
    requires Consistent(w) && Allowed(w, e)
    ensures Consistent(After(w, e))
  {
    hide Consistent;
    match e
    case Act(step) => ActConsistent(w, step);
    case Deliver(p, rbuf) => DeliverConsistent(w, p, rbuf);
    case Consume(n) => ConsumeConsistent(w, n);
  }

  ghost predicate History(trace: seq<World>, events: seq<Event>)
  {
    && |trace| == |events| + 1 && trace[0] == Genesis()
    && forall k :: 0 <= k < |events| ==> Allowed(trace[k], events[k]) && trace[k + 1] == After(trace[k], events[k])
  }

  lemma {:induction false} AlwaysConsistent(trace: seq<World>, events: seq<Event>, k: nat)
    requires History(trace, events) && k < |trace|
    ensures Consistent(trace[k])
  {
    hide Consistent;
    if k == 0 {
      GenesisConsistent();
    } else {
      AlwaysConsistent(trace, events, k - 1);
      EventConsistent(trace[k - 1], events[k - 1]);
    }
  }

  /** End-to-end delivery: whatever the network drops, reorders and duplicates, what was read is a prefix of what was
      written, and so is what was read together with what can be read now. */
  lemma ReadsPrefix(trace: seq<World>, events: seq<Event>, k: nat)
    requires History(trace, events) && k < |trace|
    ensures trace[k].rcv.received != []
    ensures var w := trace[k]; var n := BytesAvailable(w.rcv);
            && w.read <= w.snd.written
            && 0 <= n <= |w.rbuf| && w.read + w.rbuf[..n] <= w.snd.written
            && (forall x: int :: 0 <= x < |w.read| + n ==> Covers(w.rcv.received, x))
            && (Covers(w.rcv.received, |w.read| + n) ==> RecvComplete(w.rcv) && |w.read| + n == w.rcv.eos)
  {
    AlwaysConsistent(trace, events, k);
    var w := trace[k];
    AvailableNat(w);
    var n := BytesAvailable(w.rcv);
    AvailableBuffered(w, n);
    var a := w.rcv.dataOff;
    assert w.snd.written[..a] + w.snd.written[a..a + n] == w.snd.written[..a + n];
  }

  lemma AvailableNat(w: World)
    requires Consistent(w)
    ensures w.rcv.received != [] && BytesAvailable(w.rcv) >= 0
  {
  }

  /** A complete transfer without reset delivers exactly what was written. */
  lemma CompleteDeliversAll(trace: seq<World>, events: seq<Event>, k: nat)
    requires History(trace, events) && k < |trace| && trace[k].rcv.received != []
    requires RecvComplete(trace[k].rcv) && trace[k].rcv.appError == UINT64_MAX
    ensures var w := trace[k]; var n := BytesAvailable(w.rcv);
            && 0 <= n <= |w.rbuf| && w.read + w.rbuf[..n] == w.snd.written
            && (w.rcv.dataOff == w.rcv.eos ==> w.read == w.snd.written)
  {
    AlwaysConsistent(trace, events, k);
    ReadsPrefix(trace, events, k);
    var w := trace[k];
    EosKnown(w);
  }

  lemma EosKnown(w: World)
    requires Consistent(w) && RecvComplete(w.rcv)
    ensures w.rcv.eos < UINT64_MAX && |w.read| == w.rcv.dataOff <= w.rcv.eos
    ensures w.rcv.appError == UINT64_MAX ==> w.rcv.eos == |w.snd.written|
    ensures w.rcv.appError != UINT64_MAX ==> w.snd.st.reliableSize <= w.rcv.eos
  {
    hide Sound, NetOk, BufOk, SeenOk, RbufOk, Covers;
    HeadBelow(w.rcv.received);
    LastReceived(w.snd, w.rcv);
    AnnouncedSize(w.snd);
  }

  /** A stream that was reset delivers at least the bytes up to the reliable size that the sender still stands by. */
  lemma ResetDeliversReliable(trace: seq<World>, events: seq<Event>, k: nat)
    requires History(trace, events) && k < |trace| && trace[k].rcv.received != []
    requires RecvComplete(trace[k].rcv) && trace[k].rcv.appError != UINT64_MAX
    ensures var w := trace[k]; var n := BytesAvailable(w.rcv);
            && w.snd.st.appError == w.rcv.appError && 0 <= n <= |w.rbuf|
            && w.snd.st.reliableSize <= |w.snd.written|
            && w.snd.written[..w.snd.st.reliableSize] <= w.read + w.rbuf[..n] <= w.snd.written
  {
    AlwaysConsistent(trace, events, k);
    ReadsPrefix(trace, events, k);
    EosKnown(trace[k]);
  }

  /** When the sender deems a transfer complete without having reset it, so does the receiver. */
  lemma CompletionAgrees(trace: seq<World>, events: seq<Event>, k: nat)
    requires History(trace, events) && k < |trace| && trace[k].snd.st.acked != []
    requires TransferComplete(trace[k].snd.st) && trace[k].snd.st.appError == UINT64_MAX
    ensures trace[k].rcv.received != [] && RecvComplete(trace[k].rcv) && trace[k].rcv.eos == |trace[k].snd.written|
  {
    AlwaysConsistent(trace, events, k);
    var w := trace[k];
    hide Whole, Waiting, Gapless, FramesFit, MarkerCarried, Retired, NetOk, BufOk, RbufOk, ReadOk, Separated;
    AnnouncedSize(w.snd);
    assert w.rcv.eos == w.snd.st.finalSize;
    HeadKept(w.snd.st.acked, w.rcv.received);
  }

  /** In no run is a frame of the sender rejected, the send buffer shifted beyond what it holds, or a byte made
      available that was not buffered. */
  lemma NeverStuck(trace: seq<World>, events: seq<Event>, k: nat)
    requires History(trace, events) && k < |trace|
    ensures var w := trace[k];
            && w.snd.st.acked != [] && w.rcv.received != []
            && (forall p :: p in w.net ==> !Rejected(w.rcv, p))
            && (forall i :: 0 <= i < |w.snd.frames| && Enabled(w.snd, Ack(i)) ==> 0 <= ShiftOf(w, Ack(i)) <= |w.buf|)
            && 0 <= BytesAvailable(w.rcv) <= |w.rbuf|
  {
    AlwaysConsistent(trace, events, k);
    var w := trace[k];
    ReadsPrefix(trace, events, k);
    AvailableNat(w);
    forall p | p in w.net ensures !Rejected(w.rcv, p) {
      NeverRejected(w, p);
    }
    forall i | 0 <= i < |w.snd.frames| && Enabled(w.snd, Ack(i)) ensures 0 <= ShiftOf(w, Ack(i)) <= |w.buf| {
      AckedHead(w.snd, i);
    }
  }

  // ----- a whole exchange -----

  /** The frame of the exchange below: one byte, and the FIN. */
  function OnlyFrame(): (p: Packet)
  {
    Packet(Sent(0, 1, Fin), [7], 0, UINT64_MAX)
  }

  function StageSender(k: nat): (s: Sender)
  {
    if k == 0 then Start()
    else if k == 1 then Sender(Init().(pending := [Range(0, UINT64_MAX)]), [7], [], None)
    else if k == 2 then Sender(Init().(pending := [Range(0, 1)], finalSize := 1), [7], [], None)
    else if k < 6 then
      Sender(Init().(finalSize := 1, sizeInflight := 1, eos := InFlight), [7], [Flight(OnlyFrame().sent, true)],
             Some(1))
    else
      Sender(Init().(acked := [Range(0, 1)], finalSize := 1, sizeInflight := 1, eos := Delivered), [7], [], Some(1))
  }

  /** The states of the exchange. */
  function Stage(k: nat): (w: World)
  {
    var s := StageSender(k);
    var rcv := RecvState([Range(0, 1)], if k < 5 then 0 else 1, 1, UINT64_MAX);
    if k == 0 then Genesis()
    else if k < 3 then World(s, [7], 0, {}, {}, RecvInit(), [], [])
    else if k == 3 then World(s, [7], 0, {OnlyFrame()}, {}, RecvInit(), [], [])
    else if k == 4 then World(s, [7], 0, {OnlyFrame()}, {OnlyFrame().sent}, rcv, [7], [])
    else if k == 5 then World(s, [7], 0, {OnlyFrame()}, {OnlyFrame().sent}, rcv, [], [7])
    else World(s, [], 1, {OnlyFrame()}, {OnlyFrame().sent}, rcv, [], [7])
  }

  ghost predicate Leads(w: World, e: Event, w': World)
  {
    Allowed(w, e) && w' == After(w, e)
  }

  lemma FirstWrite()
    ensures Leads(Stage(0), Act(Write([7])), Stage(1))
  {
    hide Union;
    OneUnion([], 0, UINT64_MAX);
  }

  lemma ThenClose()
    ensures Leads(Stage(1), Act(Close), Stage(2))
  {
    hide Union, Difference;
    OneDifference();
  }

  lemma ThenSend()
    ensures Leads(Stage(2), Act(SendData(1, true)), Stage(3))
  {
    hide Next, Emitted, ShiftOf, Enabled, StageSender, PacketFor;
    SenderSent();
    PacketBuilt();
    var w := Stage(2);
    assert w.buf[0..] + [] == w.buf;
  }

  lemma SenderSent()
    ensures var s, step := StageSender(2), SendData(1, true);
            && Enabled(s, step) && Emitted(s, step) == Some(OnlyFrame().sent) && Next(s, step) == StageSender(3)
  {
    hide Difference;
    NothingLeft();
  }

  lemma PacketBuilt()
    ensures var w := Stage(2);
            && w.snd == StageSender(2) && w.snd.st.acked != [] && PacketFor(w, OnlyFrame().sent) == OnlyFrame()
            && (Enabled(w.snd, SendData(1, true)) ==> ShiftOf(w, SendData(1, true)) == 0)
  {
    assert Stage(2).buf[0..1] == [7];
  }

  lemma NothingLeft()
    ensures Difference([Range(0, 1)], 0, 1) == [] && Difference([], 1, UINT64_MAX) == []
  {
    var u := [Range(0, 1)];
    assert Difference(u, 0, 1) == Cut(u[0], 0, 1) + Difference(u[1..], 0, 1);
  }

  lemma ThenDeliver()
    ensures Leads(Stage(3), Deliver(OnlyFrame(), [7]), Stage(4))
  {
    hide Union, Overlaid, Payload;
    FirstByte(OnlyFrame());
  }

  lemma FirstByte(p: Packet)
    requires p.sent.start == 0 && p.data == [7]
    ensures Buffered(RecvInit(), [], [7], p) && Union([Range(0, 0)], 0, 1) == [Range(0, 1)]
  {
    UnionIs([Range(0, 0)], 0, 1, 0, 1);
    assert Payload(RecvInit(), p) == [7];
  }

  lemma ThenRead()
    ensures Leads(Stage(4), Consume(1), Stage(5))
  {
  }

  lemma ThenAck()
    ensures Leads(Stage(5), Act(Ack(0)), Stage(6))
  {
    hide Next, Emitted, ShiftOf, Enabled, StageSender;
    SenderAcked();
    AckShifts();
    var w := Stage(5);
    assert w.buf[1..] + [] == [];
  }

  lemma AckShifts()
    ensures var w := Stage(5);
            && w.snd == StageSender(5) && Enabled(w.snd, Ack(0)) && ShiftOf(w, Ack(0)) == 1
            && w.snd.frames == [Flight(OnlyFrame().sent, true)] && w.snd.st.acked != []
  {
    hide Union, Buffered;
    FirstByte(OnlyFrame());
  }

  lemma SenderAcked()
    ensures var s := StageSender(5);
            Enabled(s, Ack(0)) && Next(s, Ack(0)) == StageSender(6) && Emitted(s, Ack(0)) == None
  {
    hide Union, Difference, Acked, Without;
    var s := StageSender(5);
    StateAcked();
    FrameGone(s.frames);
    assert Next(s, Ack(0)) == s.(st := Acked(s.st, s.frames[0].sent), frames := Without(s.frames, 0));
  }

  lemma StateAcked()
    ensures Acked(StageSender(5).st, OnlyFrame().sent) == StageSender(6).st
  {
    hide Union, Difference, Buffered;
    FirstByte(OnlyFrame());
    NothingToCut();
  }

  lemma NothingToCut()
    ensures Difference([], 0, 1) == []
  {
  }

  lemma FrameGone(frames: seq<Flight>)
    requires |frames| == 1
    ensures Without(frames, 0) == []
  {
  }

  /** A run in which both ends complete: one byte is written, sent with a FIN, received, read and acked. */
  lemma CompletionHappens()
    ensures exists trace: seq<World>, events: seq<Event> ::
              && History(trace, events) && |events| == 6 && trace[6].snd.st.acked != [] && trace[6].rcv.received != []
              && TransferComplete(trace[6].snd.st) && RecvComplete(trace[6].rcv)
              && trace[6].snd.written == trace[6].read == [7] && trace[6].buf == []
  {
    hide Leads, Allowed, After, Stage;
    var trace := [Stage(0), Stage(1), Stage(2), Stage(3), Stage(4), Stage(5), Stage(6)];
    var events := [Act(Write([7])), Act(Close), Act(SendData(1, true)), Deliver(OnlyFrame(), [7]), Consume(1),
                   Act(Ack(0))];
    FirstWrite();
    ThenClose();
    ThenSend();
    ThenDeliver();
    ThenRead();
    ThenAck();
    Exchanged(trace, events);
    LastStage();
  }

  lemma Exchanged(trace: seq<World>, events: seq<Event>)
    requires |trace| == |events| + 1 && trace[0] == Stage(0)
    requires forall k :: 0 <= k < |events| ==> Leads(trace[k], events[k], trace[k + 1])
    ensures History(trace, events)
  {
    hide Allowed, After;
    assert Stage(0) == Genesis();
    forall k | 0 <= k < |events| ensures Allowed(trace[k], events[k]) && trace[k + 1] == After(trace[k], events[k]) {
      assert Leads(trace[k], events[k], trace[k + 1]);
    }
  }

  lemma LastStage()
    ensures var w := Stage(6);
            && w.snd.st.acked != [] && w.rcv.received != [] && TransferComplete(w.snd.st) && RecvComplete(w.rcv)
            && w.snd.written == w.read == [7] && w.buf == []
  {
  }
}
