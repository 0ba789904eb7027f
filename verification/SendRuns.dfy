/** The sending side of a stream over whole runs: what the application does, what is sent, and what becomes of the
    frames (lib/sendstate.c, quicly_send_stream and on_ack_stream of lib/quicly.c, quicly_sentmap_update of
    lib/sentmap.c). */
module SendRuns {
  import opened Basics
  import opened Ranges
  import opened SendStates
  import opened StreamBufs

  /** A sent frame that the sentmap still has; `inFlight` until it is declared lost. */
  datatype Flight = Flight(sent: Sent, inFlight: bool)

  /** `announced` is the final size that the first marker sent has told the peer. */
  datatype Sender = Sender(st: SendState, written: seq<Byte>, frames: seq<Flight>, announced: Option<nat>)

  datatype Step =
    | Write(data: seq<Byte>)
    | Sync
    | Close
    | AbortAt(error: nat, reliable: nat)
    | Abort(error: nat)
    | SendData(len: nat, wroteAll: bool)
    | SendMarker
    | Ack(i: nat)
    | Lose(i: nat)
    | Expire(i: nat)

  function Start(): (s: Sender)
  {
    Sender(Init(), [], [], None)
  }

  /** When the source lets a step happen. */
  predicate Enabled(s: Sender, step: Step)
  {
    var st := s.st;
    st.acked != [] && st.sizeInflight <= st.finalSize &&
    match step
    case Write(data) => IsOpen(st) && |s.written| + |data| < UINT64_MAX
    case Sync => true
    case Close => IsOpen(st) && st.eos == Unsent && st.sizeInflight <= |s.written| < UINT64_MAX
    case AbortAt(error, reliable) =>
      && !TransferComplete(st) && st.appError == UINT64_MAX && error < UINT64_MAX
      && 0 < reliable <= |s.written| && reliable <= ResetSize(st, reliable)
    case Abort(error) =>
      && !TransferComplete(st) && MarkerOf(st) != Reset && error < UINT64_MAX
      && (st.appError != UINT64_MAX ==> st.appError == error)
    case SendData(len, wroteAll) =>
      && st.pending != [] && 0 < len && st.pending[0].start + len <= Min(st.pending[0].end, |s.written|)
      && (wroteAll ==> st.pending[0].start + len == |s.written|)
    case SendMarker => !IsOpen(st) && st.eos == Unsent && (st.pending == [] || MarkerOf(st) == Reset)
    case Ack(i) => i < |s.frames| && s.frames[i].sent.start <= s.frames[i].sent.end
    case Lose(i) => i < |s.frames| && s.frames[i].inFlight
    case Expire(i) => i < |s.frames|
  }

  /** The frames once the one at `i` is gone. */
  function Without(frames: seq<Flight>, i: nat): (r: seq<Flight>)
    requires i < |frames|
  {
    frames[..i] + frames[i + 1..]
  }

  function Announce(s: Sender, m: Marker): (a: Option<nat>)
  {
    if m != NoMarker && s.announced == None then Some(s.st.finalSize) else s.announced
  }

  function Next(s: Sender, step: Step): (r: Sender)
    requires Enabled(s, step)
  {
    var st := s.st;
    match step
    case Write(data) => s.(st := Activate(st), written := s.written + data)
    case Sync => s.(st := Activate(st))
    case Close => s.(st := Shutdown(st, |s.written|))
    case AbortAt(error, reliable) => s.(st := ResetTo(st, error, reliable))
    case Abort(error) => s.(st := ResetTo(st, error, 0))
    case SendData(len, wroteAll) =>
      var f := DataFrame(st, len);
      Sender(AfterSend(st, f, wroteAll), s.written, s.frames + [Flight(f, true)], Announce(s, f.marker))
    case SendMarker =>
      var f := MarkerFrame(st);
      s.(st := st.(eos := InFlight), frames := s.frames + [Flight(f, true)], announced := Announce(s, f.marker))
    case Ack(i) => s.(st := Acked(st, s.frames[i].sent), frames := Without(s.frames, i))
    case Lose(i) => s.(st := Lost(st, s.frames[i].sent), frames := s.frames[i := Flight(s.frames[i].sent, false)])
    case Expire(i) =>
      s.(st := if s.frames[i].inFlight then Lost(st, s.frames[i].sent) else st, frames := Without(s.frames, i))
  }

  // ----- the invariant -----

  ghost predicate Shape(st: SendState, n: nat)
  {
    && Anchored(st.acked) && Canonical(st.pending) && st.sizeInflight <= n < UINT64_MAX
    && st.sizeInflight <= st.finalSize && (IsOpen(st) || st.finalSize <= n)
    && (MarkerOf(st) == Fin ==> st.finalSize == n)
  }

  ghost predicate AckedBelow(st: SendState)
  {
    forall x: int :: Covers(st.acked, x) ==> x < st.sizeInflight
  }

  ghost predicate Apart(st: SendState)
  {
    forall x: int :: !(Covers(st.acked, x) && Covers(st.pending, x))
  }

  ghost predicate PendingBelow(st: SendState)
  {
    forall x: int :: Covers(st.pending, x) ==> x < st.finalSize
  }

  ghost predicate Carries(f: Flight, x: int)
  {
    f.inFlight && f.sent.start <= x < f.sent.end
  }

  ghost predicate Carried(frames: seq<Flight>, x: int)
  {
    exists i :: 0 <= i < |frames| && Carries(frames[i], x)
  }

  /** No byte is forgotten. */
  ghost predicate Whole(st: SendState, frames: seq<Flight>)
  {
    forall x: int :: 0 <= x < st.sizeInflight ==> Covers(st.acked, x) || Covers(st.pending, x) || Carried(frames, x)
  }

  /** What was written and never sent is waiting to be sent. */
  ghost predicate Waiting(st: SendState, n: nat)
  {
    forall x: int :: st.sizeInflight <= x < Min(st.finalSize, n) ==> Covers(st.pending, x)
  }

  /** What is pending beyond the bytes sent so far has no gaps. */
  ghost predicate Gapless(st: SendState)
  {
    forall x: int, y: int :: st.sizeInflight <= x <= y && Covers(st.pending, y) ==> Covers(st.pending, x)
  }

  ghost predicate FrameFits(st: SendState, f: Sent)
  {
    && f.start <= f.end <= st.sizeInflight && Level(f.marker) <= Level(MarkerOf(st))
  }

  ghost predicate FramesFit(st: SendState, frames: seq<Flight>)
  {
    forall i :: 0 <= i < |frames| ==> FrameFits(st, frames[i].sent)
  }

  ghost predicate MarkedBy(f: Flight, m: Marker)
  {
    f.inFlight && f.sent.marker == m
  }

  /** A marker in flight is in flight on a frame. */
  ghost predicate MarkerCarried(st: SendState, frames: seq<Flight>)
  {
    && (st.eos != Unsent ==> !IsOpen(st))
    && (st.eos == InFlight ==> exists i :: 0 <= i < |frames| && MarkedBy(frames[i], MarkerOf(st)))
  }

  /** After a reset, nothing at or above the reliable size is ever sent again. */
  ghost predicate Retired(st: SendState)
  {
    st.appError != UINT64_MAX ==>
      && !IsOpen(st) && st.reliableSize <= st.finalSize
      && (forall x: int :: Covers(st.pending, x) ==> x < st.reliableSize)
      && (forall x: int :: st.reliableSize <= x < st.finalSize ==> Covers(st.acked, x))
  }

  ghost predicate FinalKept(s: Sender)
  {
    && (s.announced == None ==> s.st.eos == Unsent && forall i :: 0 <= i < |s.frames| ==>
        s.frames[i].sent.marker == NoMarker)
    && (s.announced.Some? ==> s.st.finalSize == s.announced.value == s.st.sizeInflight)
  }

  ghost predicate Sound(s: Sender)
  {
    && Shape(s.st, |s.written|) && AckedBelow(s.st) && Apart(s.st) && PendingBelow(s.st) && Whole(s.st, s.frames)
    && Waiting(s.st, |s.written|) && Gapless(s.st) && FramesFit(s.st, s.frames) && MarkerCarried(s.st, s.frames)
    && Retired(s.st) && FinalKept(s)
  }

  lemma StartSound()
    ensures Sound(Start())
  {
    var st := Init();
    forall x: int ensures !Covers(st.acked, x) && !Covers(st.pending, x) {
    }
  }

  // ----- the frames -----

  lemma WithoutCarried(frames: seq<Flight>, i: nat, x: int)
    requires i < |frames| && Carried(frames, x) && !Carries(frames[i], x)
    ensures Carried(Without(frames, i), x)
  {
    var j :| 0 <= j < |frames| && Carries(frames[j], x);
    assert Without(frames, i)[if j < i then j else j - 1] == frames[j];
  }

  lemma WithoutMarked(frames: seq<Flight>, i: nat, m: Marker)
    requires i < |frames| && !MarkedBy(frames[i], m) && exists j :: 0 <= j < |frames| && MarkedBy(frames[j], m)
    ensures exists j :: 0 <= j < |Without(frames, i)| && MarkedBy(Without(frames, i)[j], m)
  {
    var j :| 0 <= j < |frames| && MarkedBy(frames[j], m);
    assert Without(frames, i)[if j < i then j else j - 1] == frames[j];
  }

  lemma WithoutFits(st: SendState, frames: seq<Flight>, i: nat)
    requires i < |frames| && FramesFit(st, frames)
    ensures FramesFit(st, Without(frames, i))
  {
  }

  // ----- activation -----

  lemma ActivateCovers(st: SendState, n: nat)
    requires Shape(st, n) && Gapless(st)
    ensures var p := Activate(st).pending;
            Canonical(p) && forall x: int :: Covers(p, x) <==>
                  Covers(st.pending, x) || st.sizeInflight <= x < st.finalSize
  {
    var k := |st.pending|;
    if k != 0 && st.pending[k - 1].end == st.finalSize {
      assert Covers(st.pending, st.finalSize - 1) by {
        assert st.pending[k - 1].start <= st.finalSize - 1 < st.pending[k - 1].end;
      }
    } else {
      UnionSeparated(st.pending, st.sizeInflight, st.finalSize);
      UnionCovering(st.pending, st.sizeInflight, st.finalSize);
    }
  }

  lemma ActivateSound(s: Sender, more: seq<Byte>)
    requires Sound(s) && |s.written| + |more| < UINT64_MAX && (more == [] || IsOpen(s.st))
    ensures Sound(s.(st := Activate(s.st), written := s.written + more))
  {
    hide Covers, Separated, Carried, Activate;
    var st, st' := s.st, Activate(s.st);
    ActivateOnlyPending(st);
    ActivateCovers(st, |s.written|);
    var s' := s.(st := st', written := s.written + more);
    assert Shape(st', |s'.written|);
    assert AckedBelow(st');
    assert Apart(st');
    assert PendingBelow(st');
    assert Whole(st', s.frames);
    assert Waiting(st', |s'.written|);
    assert Gapless(st');
    assert FramesFit(st', s.frames);
    assert MarkerCarried(st', s.frames);
    assert Retired(st');
    assert FinalKept(s');
  }

  lemma ActivateOnlyPending(st: SendState)
    requires st.sizeInflight <= st.finalSize
    ensures Activate(st) == st.(pending := Activate(st).pending)
  {
  }

  lemma CloseSound(s: Sender)
    requires Sound(s) && Enabled(s, Close)
    ensures Sound(Next(s, Close))
  {
    hide Covers, Separated, Carried, Union, Difference;
    var st, n := s.st, |s.written|;
    var mid := Union(st.pending, st.sizeInflight, n);
    UnionSeparated(st.pending, st.sizeInflight, n);
    UnionCovering(st.pending, st.sizeInflight, n);
    DifferenceCovering(mid, n, UINT64_MAX);
    var st' := Next(s, Close).st;
    assert FramesFit(st', s.frames);
  }

  lemma ResetSound(s: Sender, error: nat, reliable: nat)
    requires Sound(s) && error < UINT64_MAX && reliable <= ResetSize(s.st, reliable) && reliable <= |s.written|
    requires Level(MarkerOf(s.st)) < if reliable == 0 then 3 else 2
    ensures Sound(s.(st := ResetTo(s.st, error, reliable)))
  {
    hide Covers, Separated, Carried, Union, Difference;
    var st, st' := s.st, ResetTo(s.st, error, reliable);
    var n := st'.finalSize;
    AnchoredUnion(st.acked, reliable, n);
    UnionCovering(st.acked, reliable, n);
    DifferenceCovering(st.pending, reliable, UINT64_MAX);
    assert n == Max(reliable, st.sizeInflight) || n == st.sizeInflight;
    var s' := s.(st := st');
    assert Shape(st', |s'.written|);
    assert AckedBelow(st');
    assert Apart(st');
    assert PendingBelow(st');
    assert Whole(st', s.frames);
    assert Waiting(st', |s'.written|);
    assert Gapless(st');
    assert FramesFit(st', s.frames);
    assert MarkerCarried(st', s.frames);
    assert Retired(st');
    assert FinalKept(s');
  }

  // ----- sending -----

  lemma {:induction false} AddedCarried(frames: seq<Flight>, f: Flight, x: int)
    ensures Carried(frames + [f], x) <==> Carried(frames, x) || Carries(f, x)
  {
    if Carried(frames, x) {
      var i :| 0 <= i < |frames| && Carries(frames[i], x);
      assert (frames + [f])[i] == frames[i];
    }
    assert (frames + [f])[|frames|] == f;
  }

  /** Where the next byte to send is. */
  lemma FirstPending(st: SendState, n: nat, len: nat)
    requires Shape(st, n) && Gapless(st) && st.pending != [] && st.pending[0].start + len <= st.pending[0].end
    ensures st.pending[0].start <= st.sizeInflight
    ensures forall x: int :: st.pending[0].start <= x < st.pending[0].start + len ==> Covers(st.pending, x)
  {
    assert Covers(st.pending, st.pending[0].start);
    NothingBefore(st.pending, st.sizeInflight);
  }

  lemma NothingBefore(rs: seq<Range>, x: int)
    requires Canonical(rs) && rs != []
    ensures x < rs[0].start ==> !Covers(rs, x)
  {
  }

  lemma SendDataCovers(s: Sender, len: nat, wroteAll: bool)
    requires Sound(s) && Enabled(s, SendData(len, wroteAll))
    ensures var st, st' := s.st, Next(s, SendData(len, wroteAll)).st; var f := DataFrame(st, len);
            && Canonical(st'.pending) && f.start <= st.sizeInflight
            && (forall x: int :: Covers(st'.pending, x) <==>
                                 && Covers(st.pending, x) && !(f.start <= x < f.end)
                                 && !(wroteAll && st'.sizeInflight <= x < UINT64_MAX))
            && (forall x: int :: f.start <= x < f.end ==> Covers(st.pending, x))
  {
    hide Covers, Separated, Carried, Union, Difference;
    var st := s.st;
    var f := DataFrame(st, len);
    FirstPending(st, |s.written|, len);
    DifferenceCovering(st.pending, f.start, f.end);
    DifferenceCovering(Difference(st.pending, f.start, f.end), Max(st.sizeInflight, f.end), UINT64_MAX);
  }

  lemma SendDataSound(s: Sender, len: nat, wroteAll: bool)
    requires Sound(s) && Enabled(s, SendData(len, wroteAll))
    ensures Sound(Next(s, SendData(len, wroteAll)))
  {
    hide Covers, Separated, Carried, Union, Difference;
    var s' := Next(s, SendData(len, wroteAll));
    var st, st', f := s.st, s'.st, DataFrame(s.st, len);
    SendDataCovers(s, len, wroteAll);
    forall x: int ensures Carried(s'.frames, x) <==> Carried(s.frames, x) || f.start <= x < f.end {
      AddedCarried(s.frames, Flight(f, true), x);
    }
    assert s'.frames[|s.frames|] == Flight(f, true);
    assert Covers(st.pending, f.end - 1);
    assert Shape(st', |s'.written|);
    assert AckedBelow(st');
    assert Apart(st');
    assert PendingBelow(st');
    assert Whole(st', s'.frames);
    assert Waiting(st', |s'.written|);
    assert Gapless(st');
    assert FramesFit(st', s'.frames);
    SendDataMarked(s, len, wroteAll);
    assert Retired(st');
    assert FinalKept(s');
  }

  lemma AddedMarked(frames: seq<Flight>, f: Flight, m: Marker)
    requires MarkedBy(f, m) || exists j :: 0 <= j < |frames| && MarkedBy(frames[j], m)
    ensures exists j :: 0 <= j < |frames + [f]| && MarkedBy((frames + [f])[j], m)
  {
    if j :| 0 <= j < |frames| && MarkedBy(frames[j], m) {
      assert (frames + [f])[j] == frames[j];
    } else {
      assert (frames + [f])[|frames|] == f;
    }
  }

  lemma SendDataMarked(s: Sender, len: nat, wroteAll: bool)
    requires Sound(s) && Enabled(s, SendData(len, wroteAll))
    ensures MarkerCarried(Next(s, SendData(len, wroteAll)).st, Next(s, SendData(len, wroteAll)).frames)
  {
    hide Covers, Separated, Carried, Union, Difference;
    var s' := Next(s, SendData(len, wroteAll));
    if s'.st.eos == InFlight {
      AddedMarked(s.frames, Flight(DataFrame(s.st, len), true), MarkerOf(s'.st));
    }
  }

  lemma SendMarkerSound(s: Sender)
    requires Sound(s) && Enabled(s, SendMarker)
    ensures Sound(Next(s, SendMarker))
  {
    hide Covers, Separated, Carried;
    var s' := Next(s, SendMarker);
    var f := MarkerFrame(s.st);
    NothingPending(s);
    forall x: int ensures Carried(s'.frames, x) <==> Carried(s.frames, x) {
      AddedCarried(s.frames, Flight(f, true), x);
    }
    assert s'.frames[|s.frames|] == Flight(f, true);
    AddedMarked(s.frames, Flight(f, true), MarkerOf(s'.st));
    assert FramesFit(s'.st, s'.frames);
    assert FinalKept(s');
  }

  /** When a marker is to be sent alone, everything below the final size has been sent. */
  lemma NothingPending(s: Sender)
    requires Sound(s) && Enabled(s, SendMarker)
    ensures s.st.pending == [] && s.st.sizeInflight == s.st.finalSize
  {
    var st := s.st;
    if st.pending != [] {
      assert Covers(st.pending, st.pending[0].start);
    }
    assert !Covers(st.pending, st.sizeInflight);
  }

  // ----- the fate of frames -----

  lemma AckSound(s: Sender, i: nat)
    requires Sound(s) && Enabled(s, Ack(i))
    ensures Sound(Next(s, Ack(i)))
  {
    hide Covers, Separated, Carried, Union, Difference, Without;
    var st, f, s' := s.st, s.frames[i].sent, Next(s, Ack(i));
    var st' := s'.st;
    AnchoredUnion(st.acked, f.start, f.end);
    UnionCovering(st.acked, f.start, f.end);
    DifferenceCovering(st.pending, f.start, f.end);
    forall x: int | Carried(s.frames, x) && !(f.start <= x < f.end) ensures Carried(s'.frames, x) {
      WithoutCarried(s.frames, i, x);
    }
    WithoutFits(st', s.frames, i);
    WithoutKept(s, i);
    assert FrameFits(st, f);
    assert Shape(st', |s'.written|);
    assert AckedBelow(st');
    assert Apart(st');
    assert PendingBelow(st');
    assert Whole(st', s'.frames);
    assert Waiting(st', |s'.written|);
    assert Gapless(st');
    if st'.eos == InFlight {
      WithoutMarked(s.frames, i, MarkerOf(st));
    }
    assert Retired(st');
  }

  lemma WithoutKept(s: Sender, i: nat)
    requires i < |s.frames|
    ensures forall j :: 0 <= j < |Without(s.frames, i)| ==> Without(s.frames, i)[j] in s.frames
  {
  }

  lemma LoseSound(s: Sender, i: nat)
    requires Sound(s) && Enabled(s, Lose(i))
    ensures Sound(Next(s, Lose(i)))
  {
    hide Covers, Separated, Carried, AddMissing;
    var st, f, s' := s.st, s.frames[i].sent, Next(s, Lose(i));
    var st' := s'.st;
    AddMissingFacts(st.pending, st.acked, f.start, f.end);
    forall x: int | Carried(s.frames, x) && !(f.start <= x < f.end) ensures Carried(s'.frames, x) {
      LostCarried(s.frames, i, x);
    }
    assert FrameFits(st, f);
    LostShape(s, st', f);
    assert Whole(st', s'.frames);
    if st'.eos == InFlight {
      LostMarked(s.frames, i, MarkerOf(st));
    }
    assert FramesFit(st', s'.frames);
    assert FinalKept(s');
  }

  lemma ExpireSound(s: Sender, i: nat)
    requires Sound(s) && Enabled(s, Expire(i))
    ensures Sound(Next(s, Expire(i)))
  {
    hide Covers, Separated, Carried, AddMissing, Without;
    var st, f, s' := s.st, s.frames[i].sent, Next(s, Expire(i));
    var st' := s'.st;
    AddMissingFacts(st.pending, st.acked, f.start, f.end);
    forall x: int | Carried(s.frames, x) && !Carries(s.frames[i], x) ensures Carried(s'.frames, x) {
      WithoutCarried(s.frames, i, x);
    }
    assert FrameFits(st, f);
    if s.frames[i].inFlight {
      LostShape(s, st', f);
    }
    assert Whole(st', s'.frames);
    if st'.eos == InFlight {
      WithoutMarked(s.frames, i, MarkerOf(st));
    }
    WithoutFits(st', s.frames, i);
    WithoutKept(s, i);
    assert FinalKept(s');
  }

  lemma LostShape(s: Sender, st': SendState, f: Sent)
    requires Sound(s) && FrameFits(s.st, f) && st' == Lost(s.st, f)
    ensures Shape(st', |s.written|) && AckedBelow(st') && Apart(st') && PendingBelow(st')
    ensures Waiting(st', |s.written|) && Gapless(st') && Retired(st')
  {
    hide Covers, Separated, Carried, AddMissing;
    var st := s.st;
    AddMissingFacts(st.pending, st.acked, f.start, f.end);
    assert AckedBelow(st') && Apart(st');
    assert PendingBelow(st');
    assert Waiting(st', |s.written|);
    assert Gapless(st');
    assert Retired(st');
  }

  lemma LostCarried(frames: seq<Flight>, i: nat, x: int)
    requires i < |frames| && Carried(frames, x) && !(frames[i].sent.start <= x < frames[i].sent.end)
    ensures Carried(frames[i := Flight(frames[i].sent, false)], x)
  {
    var j :| 0 <= j < |frames| && Carries(frames[j], x);
    assert frames[i := Flight(frames[i].sent, false)][j] == frames[j];
  }

  lemma LostMarked(frames: seq<Flight>, i: nat, m: Marker)
    requires i < |frames| && frames[i].sent.marker != m && exists j :: 0 <= j < |frames| && MarkedBy(frames[j], m)
    ensures var fs := frames[i := Flight(frames[i].sent, false)]; exists j :: 0 <= j < |fs| && MarkedBy(fs[j], m)
  {
    var j :| 0 <= j < |frames| && MarkedBy(frames[j], m);
    assert frames[i := Flight(frames[i].sent, false)][j] == frames[j];
  }

  // ----- whole runs -----

  lemma StepSound(s: Sender, step: Step)
    requires Sound(s) && Enabled(s, step)
    ensures Sound(Next(s, step))
  {
    hide Sound;
    match step
    case Write(data) => ActivateSound(s, data) by { KnownSize(s); }
    case Sync => ActivateSound(s, []) by { KnownSize(s); } assert s.written + [] == s.written;
    case Close => CloseSound(s);
    case AbortAt(error, reliable) => ResetSound(s, error, reliable);
    case Abort(error) => ResetSound(s, error, 0);
    case SendData(len, wroteAll) => SendDataSound(s, len, wroteAll);
    case SendMarker => SendMarkerSound(s);
    case Ack(i) => AckSound(s, i);
    case Lose(i) => LoseSound(s, i);
    case Expire(i) => ExpireSound(s, i);
  }

  lemma KnownSize(s: Sender)
    requires Sound(s)
    ensures |s.written| < UINT64_MAX
  {
  }

  ghost predicate Run(trace: seq<Sender>, steps: seq<Step>)
  {
    && |trace| == |steps| + 1 && trace[0] == Start()
    && forall k :: 0 <= k < |steps| ==> Enabled(trace[k], steps[k]) && trace[k + 1] == Next(trace[k], steps[k])
  }

  lemma {:induction false} AlwaysSound(trace: seq<Sender>, steps: seq<Step>, k: nat)
    requires Run(trace, steps) && k < |trace|
    ensures Sound(trace[k])
  {
    hide Sound;
    if k == 0 {
      StartSound();
    } else {
      AlwaysSound(trace, steps, k - 1);
      StepSound(trace[k - 1], steps[k - 1]);
    }
  }

  /** No byte is forgotten: in every state of every run, each byte sent so far is acked, waiting to be sent again, or on
      a frame in flight; nothing is both acked and waiting; only what was sent is acked. */
  lemma NoByteForgotten(trace: seq<Sender>, steps: seq<Step>, k: nat, x: int)
    requires Run(trace, steps) && k < |trace|
    ensures var st := trace[k].st;
            && (0 <= x < st.sizeInflight ==>
                Covers(st.acked, x) || Covers(st.pending, x) || Carried(trace[k].frames, x))
            && !(Covers(st.acked, x) && Covers(st.pending, x))
            && (Covers(st.acked, x) ==> x < st.sizeInflight)
  {
    AlwaysSound(trace, steps, k);
  }

  /** When nothing is in flight and nothing is waiting, everything up to the end of the stream has been acked. */
  lemma QuietMeansAcked(trace: seq<Sender>, steps: seq<Step>, k: nat)
    requires Run(trace, steps) && k < |trace| && !IsOpen(trace[k].st) && trace[k].st.pending == []
    requires forall i :: 0 <= i < |trace[k].frames| ==> !trace[k].frames[i].inFlight
    ensures trace[k].st.acked != [] && trace[k].st.acked[0].end == trace[k].st.finalSize && trace[k].st.eos != InFlight
  {
    AlwaysSound(trace, steps, k);
    var st := trace[k].st;
    AnchoredHead(st.acked);
    assert !Covers(st.pending, st.acked[0].end) && !Covers(st.pending, st.sizeInflight);
    assert st.acked[0].end > 0 ==> Covers(st.acked, st.acked[0].end - 1);
  }

  /** The frame that a step sends, if any. */
  function Emitted(s: Sender, step: Step): (f: Option<Sent>)
    requires Enabled(s, step)
  {
    match step
    case SendData(len, _) => Some(DataFrame(s.st, len))
    case SendMarker => Some(MarkerFrame(s.st))
    case _ => None
  }

  predicate SendsMarker(s: Sender, step: Step)
    requires Enabled(s, step)
  {
    Emitted(s, step).Some? && Emitted(s, step).value.marker != NoMarker
  }

  /** What has been announced stays. */
  lemma {:induction false} AnnouncedStays(trace: seq<Sender>, steps: seq<Step>, i: nat, j: nat)
    requires Run(trace, steps) && i <= j < |trace| && trace[i].announced.Some?
    ensures trace[j].announced == trace[i].announced && trace[j].st.finalSize == trace[i].announced.value
    decreases j
  {
    AlwaysSound(trace, steps, j);
    hide Shape, AckedBelow, Apart, PendingBelow, Whole, Waiting, Gapless, FramesFit, MarkerCarried, Retired;
    if i < j {
      AnnouncedStays(trace, steps, i, j - 1);
    }
  }

  /** Every FIN, RESET_STREAM_AT and RESET_STREAM frame of a run carries the same final size, the one where the stream
      then ends for good. */
  lemma FinalSizeFixed(trace: seq<Sender>, steps: seq<Step>, i: nat, j: nat)
    requires Run(trace, steps) && i <= j < |steps| && SendsMarker(trace[i], steps[i])
    ensures trace[j + 1].st.finalSize == trace[j + 1].st.sizeInflight == Emitted(trace[i], steps[i]).value.end
    ensures SendsMarker(trace[j], steps[j]) ==>
              Emitted(trace[j], steps[j]).value.end == Emitted(trace[i], steps[i]).value.end
  {
    MarkerAnnounces(trace, steps, i);
    AnnouncedStays(trace, steps, i + 1, j + 1);
    AlwaysSound(trace, steps, j + 1);
    if SendsMarker(trace[j], steps[j]) {
      MarkerAnnounces(trace, steps, j);
    }
  }

  lemma MarkerAnnounces(trace: seq<Sender>, steps: seq<Step>, i: nat)
    requires Run(trace, steps) && i < |steps| && SendsMarker(trace[i], steps[i])
    ensures trace[i + 1].announced == Some(Emitted(trace[i], steps[i]).value.end)
  {
    AlwaysSound(trace, steps, i);
    AlwaysSound(trace, steps, i + 1);
    hide Shape, AckedBelow, Apart, PendingBelow, Whole, Waiting, Gapless, FramesFit, MarkerCarried, Retired;
    assert trace[i + 1] == Next(trace[i], steps[i]);
    assert trace[i + 1].announced.Some?;
  }

  lemma {:induction false} ResetStays(trace: seq<Sender>, steps: seq<Step>, i: nat, j: nat)
    requires Run(trace, steps) && i <= j < |trace| && trace[i].st.appError != UINT64_MAX
    ensures trace[j].st.appError == trace[i].st.appError && trace[j].st.reliableSize <= trace[i].st.reliableSize
    decreases j
  {
    if i < j {
      ResetStays(trace, steps, i, j - 1);
      assert trace[j] == Next(trace[j - 1], steps[j - 1]);
    }
  }

  /** Once a stream was reset with some reliable size, no offset at or above it is ever waiting to be sent again, and
      none is ever sent. */
  lemma RetiredForGood(trace: seq<Sender>, steps: seq<Step>, i: nat, j: nat, x: int)
    requires Run(trace, steps) && i <= j < |trace| && trace[i].st.appError != UINT64_MAX
             && trace[i].st.reliableSize <= x
    ensures !Covers(trace[j].st.pending, x)
    ensures j < |steps| && Emitted(trace[j], steps[j]).Some? ==>
              var f := Emitted(trace[j], steps[j]).value; !(f.start <= x < f.end)
  {
    ResetStays(trace, steps, i, j);
    AlwaysSound(trace, steps, j);
    if j < |steps| && steps[j].SendData? {
      FirstPending(trace[j].st, |trace[j].written|, steps[j].len);
    }
  }

  /** A complete transfer that was not reset has every byte that was written acked. */
  lemma CompleteMeansAcked(trace: seq<Sender>, steps: seq<Step>, k: nat, x: int)
    requires Run(trace, steps) && k < |trace| && trace[k].st.acked != [] && TransferComplete(trace[k].st)
    ensures trace[k].st.finalSize <= |trace[k].written|
            && (0 <= x < trace[k].st.finalSize ==> Covers(trace[k].st.acked, x))
    ensures trace[k].st.appError == UINT64_MAX ==> trace[k].st.finalSize == |trace[k].written|
  {
    AlwaysSound(trace, steps, k);
    var st := trace[k].st;
    AnchoredHead(st.acked);
    assert st.acked[0].end > 0 ==> Covers(st.acked, st.acked[0].end - 1);
  }

  /** How the delivery of the marker advances: a frame whose marker was superseded changes nothing, whatever becomes of
      it. */
  /** A stream that is reset without a reliable part is complete at once; one that is closed, or reset with a reliable
      part, is when everything up to its end and the marker were acked. */
  lemma CompleteWhen(s: Sender)
    requires Sound(s)
    ensures s.st.acked != []
    ensures TransferComplete(s.st) <==>
            && (forall x: int :: 0 <= x < s.st.finalSize ==> Covers(s.st.acked, x)) && !IsOpen(s.st)
            && (s.st.eos == Delivered || (s.st.appError != UINT64_MAX && s.st.reliableSize == 0))
    ensures s.st.appError != UINT64_MAX && s.st.reliableSize == 0 ==> TransferComplete(s.st)
  {
    hide Separated, Covers;
    var st := s.st;
    var head := st.acked[0].end;
    AnchoredHead(st.acked);
    assert head > 0 ==> Covers(st.acked, head - 1);
    assert head <= st.sizeInflight;
  }

  lemma MarkerMoves(trace: seq<Sender>, steps: seq<Step>, k: nat)
    requires Run(trace, steps) && k < |steps| && trace[k + 1].st.eos != trace[k].st.eos
    ensures var s, m := trace[k], MarkerOf(trace[k].st);
            match steps[k]
            case AbortAt(_, _) => trace[k + 1].st.eos == Unsent
            case Abort(_) => trace[k + 1].st.eos == Unsent
            case SendData(len, _) => trace[k + 1].st.eos == InFlight && m == Fin == DataFrame(s.st, len).marker
            case SendMarker => s.st.eos == Unsent && trace[k + 1].st.eos == InFlight && m != NoMarker
            case Ack(i) => trace[k + 1].st.eos == Delivered && s.frames[i].sent.marker == m != NoMarker
            case Lose(i) => s.st.eos == InFlight && trace[k + 1].st.eos == Unsent
                && s.frames[i].sent.marker == m != NoMarker
            case Expire(i) => s.st.eos == InFlight && trace[k + 1].st.eos == Unsent && MarkedBy(s.frames[i], m)
                && m != NoMarker
            case _ => false
  {
    AlwaysSound(trace, steps, k);
    hide Shape, AckedBelow, Apart, PendingBelow, Whole, Waiting, Gapless, FramesFit, Retired, Union, Difference,
         AddMissing;
    assert trace[k + 1] == Next(trace[k], steps[k]);
  }

  /** A marker in flight has a frame in flight that carries it, and no frame carries a marker above the current one. */
  lemma MarkerInFlight(trace: seq<Sender>, steps: seq<Step>, k: nat)
    requires Run(trace, steps) && k < |trace|
    ensures var st, fs := trace[k].st, trace[k].frames;
            && (st.eos == InFlight ==> exists i :: 0 <= i < |fs| && MarkedBy(fs[i], MarkerOf(st)))
            && (forall i :: 0 <= i < |fs| ==> Level(fs[i].sent.marker) <= Level(MarkerOf(st)))
  {
    AlwaysSound(trace, steps, k);
    assert forall i :: 0 <= i < |trace[k].frames| ==> FrameFits(trace[k].st, trace[k].frames[i].sent);
  }

  /** What the code asserts on its way: nothing below the contiguous prefix is waiting, and a stream that has nothing
      but its marker to send has sent all its bytes. */
  lemma AssertionsHold(trace: seq<Sender>, steps: seq<Step>, k: nat)
    requires Run(trace, steps) && k < |trace|
    ensures var st := trace[k].st;
            && st.acked != [] && (st.pending == [] || st.acked[0].end <= st.pending[0].start)
            && (st.pending == [] && !IsOpen(st) ==> st.sizeInflight == st.finalSize)
            && (MarkerOf(st) == Reset ==> st.pending == [])
  {
    AlwaysSound(trace, steps, k);
    var st := trace[k].st;
    AnchoredHead(st.acked);
    if st.pending != [] {
      assert Covers(st.pending, st.pending[0].start);
    }
    assert st.pending == [] ==> !Covers(st.pending, st.sizeInflight);
  }

  /** A second shutdown, which the code's assertion on `eos_state` lets through once the FIN is lost, keeps the
      invariant if and only if it names the size already announced; it then changes nothing at all. */
  lemma SecondShutdown(s: Sender, final: nat)
    requires Sound(s) && s.announced.Some? && s.st.sizeInflight <= final <= UINT64_MAX
    ensures Sound(s.(st := Shutdown(s.st, final))) <==> final == s.announced.value
    ensures final == s.announced.value ==> Shutdown(s.st, final) == s.st
  {
    hide Covers, Separated, Carried, Union, Difference;
    var st := s.st;
    if final == s.announced.value {
      UnionOfNothing(st.pending, final);
      DifferenceCovering(st.pending, final, UINT64_MAX);
      CanonicalUnique(Difference(st.pending, final, UINT64_MAX), st.pending);
    }
  }

  lemma SecondShutdownMoves()
    ensures var steps := [Write([7]), Close, SendData(1, true), Lose(0)];
            exists trace: seq<Sender> :: Run(trace, steps) && trace[4].st.eos == Unsent && trace[4].announced == Some(1)
                            && trace[4].st.sizeInflight == 1 && Shutdown(trace[4].st, 2).finalSize == 2
  {
    hide Union, Difference, AddMissing;
    var s0 := Start();
    var s1 := Next(s0, Write([7]));
    assert s1.st.pending == [Range(0, UINT64_MAX)] by {
      OneUnion([], 0, UINT64_MAX);
    }
    var s2 := Next(s1, Close);
    assert s2.st.pending == [Range(0, 1)] by {
      OneDifference();
    }
    var s3 := Next(s2, SendData(1, true));
    var s4 := Next(s3, Lose(0));
    var trace, steps := [s0, s1, s2, s3, s4], [Write([7]), Close, SendData(1, true), Lose(0)];
    assert Run(trace, steps);
  }

  lemma OneUnion(rs: seq<Range>, s: nat, e: nat)
    requires rs == [] && s < e
    ensures Union(rs, s, e) == [Range(s, e)]
  {
  }

  lemma OneDifference()
    ensures Difference(Union([Range(0, UINT64_MAX)], 0, 1), 1, UINT64_MAX) == [Range(0, 1)]
  {
    UnionIs([Range(0, UINT64_MAX)], 0, 1, 0, 1);
    var u := [Range(0, UINT64_MAX)];
    assert Difference(u, 1, UINT64_MAX) == Cut(u[0], 1, UINT64_MAX) + Difference(u[1..], 1, UINT64_MAX);
  }
}
