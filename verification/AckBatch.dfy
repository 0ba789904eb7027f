/** Applying the acks of stream frames through a cache of one entry (on_ack_stream of lib/quicly.c). */
module AckBatches {
  import opened Basics
  import opened Ranges
  import opened SendStates
  import opened SendRuns

  /** An acked frame of a stream; `inFlight` unless its packet had been declared lost before. */
  datatype AckItem = AckItem(id: int, sent: Sent, inFlight: bool)

  /** The sending sides of the streams that exist, which of the streams have been received completely, and how far each
      send buffer was shifted. Once there is too much state for a stream, `failed`, the connection is closed and no ack
      is applied. */
  datatype Ledger = Ledger(streams: map<int, SendState>, received: set<int>, shifted: map<int, int>, failed: bool)

  datatype Entry = Entry(id: int, sent: Sent)

  predicate Ordered(e: Entry)
  {
    e.sent.start <= e.sent.end
  }

  function ShiftOf(s: SendState, f: Sent): (n: int)
    requires f.start <= f.end
  {
    if s.acked == [] || Union(s.acked, f.start, f.end) == [] then 0 else BytesToShift(s, f)
  }

  predicate Overloaded(s: SendState)
  {
    s.acked != [] && Exhausted(s)
  }

  /** Whether the sending side lets the stream be destroyed. */
  predicate Finished(s: SendState)
  {
    s.acked != [] && TransferComplete(s) && s.eos == Delivered
  }

  function Shifted(l: Ledger, id: int, n: int): (m: map<int, int>)
  {
    l.shifted[id := (if id in l.shifted then l.shifted[id] else 0) + n]
  }

  /** Applies one ack. A stream that is gone is ignored, and one that is finished on both sides is destroyed. */
  function ApplyOne(l: Ledger, e: Entry): (l': Ledger)
    requires Ordered(e)
  {
    if l.failed || e.id !in l.streams then l
    else
      var s := l.streams[e.id];
      var s' := Acked(s, e.sent);
      if Overloaded(s') then l.(streams := l.streams[e.id := s'], failed := true)
      else
        l.(streams := if Finished(s') && e.id in l.received then l.streams - {e.id} else l.streams[e.id := s'],
           shifted := Shifted(l, e.id, ShiftOf(s, e.sent)))
  }

  predicate Sane(items: seq<AckItem>)
  {
    forall i :: 0 <= i < |items| ==> items[i].sent.start <= items[i].sent.end
  }

  /** Applies each ack alone, in order. */
  function ApplyAll(l: Ledger, items: seq<AckItem>): (l': Ledger)
    requires Sane(items)
    decreases |items|
  {
    if items == [] then l else ApplyAll(ApplyOne(l, Entry(items[0].id, items[0].sent)), items[1..])
  }

  function Flush(l: Ledger, cache: Option<Entry>): (l': Ledger)
    requires cache.Some? ==> Ordered(cache.value)
  {
    if cache.None? then l else ApplyOne(l, cache.value)
  }

  function MaxMarker(a: Marker, b: Marker): (m: Marker)
    ensures Level(m) == Max(Level(a), Level(b))
  {
    if Level(b) > Level(a) then b else a
  }

  /** Whether the frame continues the cached range. */
  predicate Continues(cache: Option<Entry>, item: AckItem)
  {
    item.inFlight && cache.Some? && cache.value.id == item.id && cache.value.sent.end == item.sent.start
  }

  function Join(e: Entry, g: Sent): (r: Entry)
  {
    Entry(e.id, Sent(e.sent.start, g.end, MaxMarker(e.sent.marker, g.marker)))
  }

  /** One step of the cached application: a frame that continues the cached range is joined to it; otherwise the cached
      range is applied, and the frame is cached, or applied at once if its packet was no longer in flight. */
  function Feed(l: Ledger, cache: Option<Entry>, item: AckItem): (r: (Ledger, Option<Entry>))
    requires item.sent.start <= item.sent.end && (cache.Some? ==> Ordered(cache.value))
    ensures r.1.Some? ==> Ordered(r.1.value)
  {
    if Continues(cache, item) then (l, Some(Join(cache.value, item.sent)))
    else
      var l' := Flush(l, cache);
      if l'.failed then (l', None)
      else if item.inFlight then (l', Some(Entry(item.id, item.sent)))
      else (ApplyOne(l', Entry(item.id, item.sent)), None)
  }

  function FeedAll(l: Ledger, cache: Option<Entry>, items: seq<AckItem>): (l': Ledger)
    requires Sane(items) && (cache.Some? ==> Ordered(cache.value))
    decreases |items|
  {
    if items == [] then Flush(l, cache)
    else
      var r := Feed(l, cache, items[0]);
      FeedAll(r.0, r.1, items[1..])
  }

  // ----- what the cache does -----

  /** The acks that are applied in the end: neighbours that continue one another are joined. */
  function Batched(cache: Option<Entry>, items: seq<AckItem>): (es: seq<Entry>)
    requires Sane(items) && (cache.Some? ==> Ordered(cache.value))
    ensures forall i :: 0 <= i < |es| ==> Ordered(es[i])
    decreases |items|
  {
    if items == [] then if cache.None? then [] else [cache.value]
    else if Continues(cache, items[0]) then Batched(Some(Join(cache.value, items[0].sent)), items[1..])
    else
      var e := Entry(items[0].id, items[0].sent);
      (if cache.None? then [] else [cache.value])
      + if items[0].inFlight then Batched(Some(e), items[1..]) else [e] + Batched(None, items[1..])
  }

  function ApplyEntries(l: Ledger, es: seq<Entry>): (l': Ledger)
    requires forall i :: 0 <= i < |es| ==> Ordered(es[i])
    decreases |es|
  {
    if es == [] then l else ApplyEntries(ApplyOne(l, es[0]), es[1..])
  }

  lemma {:induction false} FailedEntries(l: Ledger, es: seq<Entry>)
    requires l.failed && forall i :: 0 <= i < |es| ==> Ordered(es[i])
    ensures ApplyEntries(l, es) == l
    decreases |es|
  {
    if es != [] {
      FailedEntries(l, es[1..]);
    }
  }

  lemma {:induction false} FailedFeed(l: Ledger, cache: Option<Entry>, items: seq<AckItem>)
    requires l.failed && Sane(items) && (cache.Some? ==> Ordered(cache.value))
    ensures FeedAll(l, cache, items) == l
    decreases |items|
  {
    if items != [] {
      var r := Feed(l, cache, items[0]);
      FailedFeed(r.0, r.1, items[1..]);
    }
  }

  lemma {:induction false} FailedApply(l: Ledger, items: seq<AckItem>)
    requires l.failed && Sane(items)
    ensures ApplyAll(l, items) == l
    decreases |items|
  {
    if items != [] {
      FailedApply(l, items[1..]);
    }
  }

  lemma OneMore(l: Ledger, cache: Option<Entry>, es: seq<Entry>)
    requires (cache.Some? ==> Ordered(cache.value)) && forall i :: 0 <= i < |es| ==> Ordered(es[i])
    ensures var all := (if cache.None? then [] else [cache.value]) + es;
            && (forall i :: 0 <= i < |all| ==> Ordered(all[i]))
            && ApplyEntries(l, all) == ApplyEntries(Flush(l, cache), es)
  {
    var all := (if cache.None? then [] else [cache.value]) + es;
    if cache.Some? {
      assert all[0] == cache.value && all[1..] == es;
    } else {
      assert all == es;
    }
  }

  /** Exactly what the cache does, for all acks and all ledgers: it applies the joined acks one by one. */
  lemma {:induction false} CacheApplies(l: Ledger, cache: Option<Entry>, items: seq<AckItem>)
    requires Sane(items) && (cache.Some? ==> Ordered(cache.value))
    ensures FeedAll(l, cache, items) == ApplyEntries(l, Batched(cache, items))
    decreases |items|
  {
    hide ApplyOne;
    if items == [] {
      OneMore(l, cache, []);
    } else {
      var item := items[0];
      var r := Feed(l, cache, item);
      if Continues(cache, item) {
        CacheApplies(r.0, r.1, items[1..]);
      } else {
        var e := Entry(item.id, item.sent);
        var rest := if item.inFlight then Batched(Some(e), items[1..]) else [e] + Batched(None, items[1..]);
        OneMore(l, cache, rest);
        var l' := Flush(l, cache);
        if l'.failed {
          FailedEntries(l', rest);
          FailedFeed(l', None, items[1..]);
        } else if item.inFlight {
          CacheApplies(l', Some(e), items[1..]);
        } else {
          OneMore(l', Some(e), Batched(None, items[1..]));
          CacheApplies(ApplyOne(l', e), None, items[1..]);
        }
      }
    }
  }

  // ----- why it makes no difference -----

  ghost predicate ProperStream(s: SendState)
  {
    Anchored(s.acked) && Canonical(s.pending) && Apart(s) && PendingBelow(s)
  }

  ghost predicate Proper(l: Ledger)
  {
    forall id :: id in l.streams ==> ProperStream(l.streams[id])
  }

  /** The frame lies within its stream, and carries no marker above the one that the stream ends with. */
  ghost predicate CurrentFor(s: SendState, f: Sent)
  {
    Level(f.marker) <= Level(MarkerOf(s)) && f.end <= s.finalSize
  }

  ghost predicate Current(l: Ledger, id: int, f: Sent)
  {
    id in l.streams ==> CurrentFor(l.streams[id], f)
  }

  ghost predicate AllCurrent(l: Ledger, items: seq<AckItem>)
  {
    forall i :: 0 <= i < |items| ==> Current(l, items[i].id, items[i].sent)
  }

  lemma AckedKeeps(s: SendState, f: Sent)
    requires ProperStream(s) && f.start <= f.end
    ensures ProperStream(Acked(s, f)) && forall g :: CurrentFor(s, g) ==> CurrentFor(Acked(s, f), g)
  {
    hide Union, Difference, Separated, Canonical, Covers;
    AnchoredUnion(s.acked, f.start, f.end);
    UnionCovering(s.acked, f.start, f.end);
    DifferenceCovering(s.pending, f.start, f.end);
  }

  lemma ApplyKeeps(l: Ledger, e: Entry)
    requires Proper(l) && Ordered(e)
    ensures Proper(ApplyOne(l, e))
    ensures forall id, f :: Current(l, id, f) ==> Current(ApplyOne(l, e), id, f)
  {
    hide Acked, ProperStream, CurrentFor, Overloaded, Finished;
    if e.id in l.streams {
      AckedKeeps(l.streams[e.id], e.sent);
    }
  }

  /** When an ack fails, when it finishes the stream, and how far it shifts the buffer. */
  lemma AckMeans(s: SendState, f: Sent)
    requires ProperStream(s) && f.start <= f.end
    ensures var s' := Acked(s, f); var n := |s'.acked| + |s'.pending|;
            && s.acked != [] && s'.acked != []
            && (Overloaded(s') <==> n >= 256 && 128 * n > s'.sizeInflight - s'.acked[0].end)
            && (Finished(s') <==> s'.acked[0].end == s'.finalSize && s'.eos == Delivered)
            && ShiftOf(s, f) == s'.acked[0].end - s.acked[0].end
  {
    hide Union, Difference, Separated, Canonical;
    AnchoredUnion(s.acked, f.start, f.end);
  }

  lemma TwoUnions(rs: seq<Range>, a: nat, b: nat, c: nat)
    requires Anchored(rs) && a <= b <= c
    ensures Union(Union(rs, a, b), b, c) == Union(rs, a, c)
  {
    hide Union, Separated, Covers;
    AnchoredUnion(rs, a, b);
    UnionCovering(rs, a, b);
    AnchoredUnion(Union(rs, a, b), b, c);
    UnionCovering(Union(rs, a, b), b, c);
    AnchoredUnion(rs, a, c);
    UnionCovering(rs, a, c);
    AnchoredUnique(Union(Union(rs, a, b), b, c), Union(rs, a, c));
  }

  lemma TwoDifferences(rs: seq<Range>, a: nat, b: nat, c: nat)
    requires Canonical(rs) && a <= b <= c
    ensures Difference(Difference(rs, a, b), b, c) == Difference(rs, a, c)
  {
    hide Difference, Separated, Covers;
    DifferenceCovering(rs, a, b);
    DifferenceCovering(Difference(rs, a, b), b, c);
    DifferenceCovering(rs, a, c);
    CanonicalUnique(Difference(Difference(rs, a, b), b, c), Difference(rs, a, c));
  }

  /** Two acks of adjoining ranges are one ack of the joined range with the greater marker. */
  lemma TwoAcks(s: SendState, f: Sent, g: Sent)
    requires Anchored(s.acked) && Canonical(s.pending) && f.start <= f.end == g.start <= g.end
    requires Level(f.marker) <= Level(MarkerOf(s)) && Level(g.marker) <= Level(MarkerOf(s))
    ensures var h := Sent(f.start, g.end, MaxMarker(f.marker, g.marker));
            Acked(Acked(s, f), g) == Acked(s, h) && ShiftOf(s, f) + ShiftOf(Acked(s, f), g) == ShiftOf(s, h)
  {
    hide Union, Difference, Separated, Canonical;
    TwoUnions(s.acked, f.start, f.end, g.end);
    TwoDifferences(s.pending, f.start, f.end, g.end);
    AnchoredUnion(s.acked, f.start, f.end);
    AnchoredUnion(s.acked, f.start, g.end);
  }

  /** A finished stream has nothing left for an ack to change, so destroying it early changes nothing. */
  lemma FinishedStays(s: SendState, g: Sent)
    requires ProperStream(s) && Finished(s) && g.start <= g.end <= s.finalSize
    ensures Acked(s, g) == s && ShiftOf(s, g) == 0
  {
    hide Union, Difference, Separated, Covers;
    AnchoredHead(s.acked);
    UnionCovering(s.acked, g.start, g.end);
    AnchoredUnion(s.acked, g.start, g.end);
    AnchoredUnique(Union(s.acked, g.start, g.end), s.acked);
    DifferenceCovering(s.pending, g.start, g.end);
    CanonicalUnique(Difference(s.pending, g.start, g.end), s.pending);
  }

  lemma JoinedApplies(l: Ledger, e: Entry, g: Sent)
    requires Proper(l) && Ordered(e) && e.sent.end == g.start <= g.end
    requires Current(l, e.id, e.sent) && Current(l, e.id, g) && !ApplyOne(ApplyOne(l, e), Entry(e.id, g)).failed
    ensures ApplyOne(ApplyOne(l, e), Entry(e.id, g)) == ApplyOne(l, Join(e, g))
  {
    hide Acked, ShiftOf, ProperStream, MaxMarker, Overloaded, Finished;
    if e.id in l.streams && !l.failed {
      var s := l.streams[e.id];
      StreamFacts(s);
      TwoAcks(s, e.sent, g);
      AckedKeeps(s, e.sent);
      var s1 := Acked(s, e.sent);
      if Finished(s1) {
        FinishedStays(s1, g);
      }
    }
  }

  lemma StreamFacts(s: SendState)
    requires ProperStream(s)
    ensures Anchored(s.acked) && Canonical(s.pending)
  {
  }

  lemma {:induction false} CachedSame(l: Ledger, cache: Option<Entry>, items: seq<AckItem>)
    requires Proper(l) && Sane(items) && AllCurrent(l, items)
    requires cache.Some? ==> Ordered(cache.value) && Current(l, cache.value.id, cache.value.sent)
    requires !ApplyAll(Flush(l, cache), items).failed
    ensures FeedAll(l, cache, items) == ApplyAll(Flush(l, cache), items)
    decreases |items|
  {
    hide Proper, Current, ApplyOne;
    if items == [] {
    } else {
      var item := items[0];
      var e := Entry(item.id, item.sent);
      var l' := Flush(l, cache);
      assert Current(l, item.id, item.sent);
      NotFailed(l', e, items[1..]);
      if Continues(cache, item) {
        JoinedApplies(l, cache.value, item.sent);
        JoinedCurrent(l, item.id, cache.value.sent, item.sent);
        CachedSame(l, Some(Join(cache.value, item.sent)), items[1..]);
      } else {
        if cache.Some? {
          ApplyKeeps(l, cache.value);
        }
        if item.inFlight {
          CachedSame(l', Some(e), items[1..]);
        } else {
          ApplyKeeps(l', e);
          CachedSame(ApplyOne(l', e), None, items[1..]);
        }
      }
    }
  }

  lemma NotFailed(l: Ledger, e: Entry, items: seq<AckItem>)
    requires Ordered(e) && Sane(items) && !ApplyAll(ApplyOne(l, e), items).failed
    ensures !ApplyOne(l, e).failed && !l.failed
  {
    if ApplyOne(l, e).failed {
      FailedApply(ApplyOne(l, e), items);
    }
  }

  lemma JoinedCurrent(l: Ledger, id: int, f: Sent, g: Sent)
    requires Current(l, id, f) && Current(l, id, g)
    ensures Current(l, id, Sent(f.start, g.end, MaxMarker(f.marker, g.marker)))
  {
  }

  /** Batching is transparent: for every sequence of acks that can be applied each alone, the cache gives the same
      sending sides, destroys the same streams and shifts the same number of bytes out of each send buffer. */
  lemma BatchingTransparent(l: Ledger, items: seq<AckItem>)
    requires Proper(l) && Sane(items) && AllCurrent(l, items) && !ApplyAll(l, items).failed
    ensures FeedAll(l, None, items) == ApplyAll(l, items)
  {
    CachedSame(l, None, items);
  }

  /** The sender is at the end of some run. */
  ghost predicate Reached(s: Sender)
  {
    exists trace: seq<Sender>, steps: seq<Step> :: Run(trace, steps) && trace[|trace| - 1] == s
  }

  /** All acks are of frames that their stream has sent. */
  ghost predicate AcksOf(senders: map<int, Sender>, items: seq<AckItem>)
  {
    forall i :: 0 <= i < |items| && items[i].id in senders ==>
      exists k :: 0 <= k < |senders[items[i].id].frames| && senders[items[i].id].frames[k].sent == items[i].sent
  }

  ghost predicate LedgerOf(l: Ledger, senders: map<int, Sender>)
  {
    forall id :: id in l.streams ==> id in senders && l.streams[id] == senders[id].st && Reached(senders[id])
  }

  lemma ReachedSound(s: Sender)
    requires Reached(s)
    ensures Sound(s)
  {
    hide Sound;
    var trace, steps :| Run(trace, steps) && trace[|trace| - 1] == s;
    AlwaysSound(trace, steps, |trace| - 1);
  }

  lemma SoundProper(s: Sender, k: nat)
    requires Sound(s)
    ensures ProperStream(s.st) && (k < |s.frames| ==> CurrentFor(s.st, s.frames[k].sent))
  {
  }

  /** What transparency asks for holds of whatever any run sends. */
  lemma SentAreCurrent(l: Ledger, senders: map<int, Sender>, items: seq<AckItem>)
    requires LedgerOf(l, senders) && AcksOf(senders, items)
    ensures Proper(l) && AllCurrent(l, items)
  {
    hide Reached, Sound, ProperStream, CurrentFor;
    forall id | id in l.streams ensures ProperStream(l.streams[id]) {
      ReachedSound(senders[id]);
      SoundProper(senders[id], 0);
    }
    forall i | 0 <= i < |items| ensures Current(l, items[i].id, items[i].sent) {
      if items[i].id in l.streams {
        var s := senders[items[i].id];
        ReachedSound(s);
        var k :| 0 <= k < |s.frames| && s.frames[k].sent == items[i].sent;
        SoundProper(s, k);
      }
    }
  }

  /** Whatever the runs of the streams were, the acks of their frames are applied as if each were applied alone. */
  lemma RunsTransparent(l: Ledger, senders: map<int, Sender>, items: seq<AckItem>)
    requires LedgerOf(l, senders) && AcksOf(senders, items) && Sane(items) && !ApplyAll(l, items).failed
    ensures FeedAll(l, None, items) == ApplyAll(l, items)
  {
    hide LedgerOf, AcksOf;
    SentAreCurrent(l, senders, items);
    BatchingTransparent(l, items);
  }

  // ----- what it depends on -----

  lemma Extended(a: nat, e: nat)
    requires a < e
    ensures Union([Range(0, a)], a, e) == [Range(0, e)]
  {
    hide Union;
    UnionIs([Range(0, a)], a, e, 0, 1);
  }

  /** Why markers must be current: were a frame to carry a marker above the one its stream ends with, the cache would
      lose the delivery of the current one. */
  lemma StaleMarkerMatters()
    ensures var s := Init().(finalSize := 2, sizeInflight := 2, eos := InFlight);
            var items := [AckItem(0, Sent(0, 1, Fin), true), AckItem(0, Sent(1, 2, Reset), true)];
            var l := Ledger(map[0 := s], {}, map[], false);
            var alone, cached := ApplyAll(l, items), FeedAll(l, None, items);
            && 0 in alone.streams && alone.streams[0].eos == Delivered
            && 0 in cached.streams && cached.streams[0].eos == InFlight
  {
    hide Union, Difference;
    Extended(0, 1);
    Extended(1, 2);
    Extended(0, 2);
    var s := Init().(finalSize := 2, sizeInflight := 2, eos := InFlight);
    var items := [AckItem(0, Sent(0, 1, Fin), true), AckItem(0, Sent(1, 2, Reset), true)];
    var l := Ledger(map[0 := s], {}, map[], false);
    var l1 := ApplyOne(l, Entry(0, Sent(0, 1, Fin)));
    var l2 := ApplyOne(l1, Entry(0, Sent(1, 2, Reset)));
    assert items[1..] == [items[1]] && items[1..][1..] == [];
    assert ApplyAll(l1, items[1..]) == ApplyAll(l2, items[1..][1..]) == l2;
    var c1 := Some(Entry(0, Sent(0, 1, Fin)));
    var c2 := Some(Entry(0, Sent(0, 2, Reset)));
    assert Feed(l, None, items[0]) == (l, c1) && Feed(l, c1, items[1]) == (l, c2);
    assert FeedAll(l, c1, items[1..]) == FeedAll(l, c2, items[1..][1..]) == ApplyOne(l, c2.value);
  }

  /** 255 bytes were acked, each three bytes from the next. */
  function Scattered(): (rs: seq<Range>)
    ensures |rs| == 255 && forall i :: 0 <= i < 255 ==> rs[i] == Range(4 * i, 4 * i + 1)
  {
    seq(255, (i: nat) => Range(4 * i, 4 * i + 1))
  }

  lemma ScatteredUnions()
    ensures var u := Union(Scattered(), 2, 3); |u| == 256 && u[0] == Range(0, 1)
    ensures var u := Union(Scattered(), 2, 4); |u| == 255 && u[0] == Range(0, 1)
  {
    var rs := Scattered();
    assert rs[..1] == [Range(0, 1)];
    UnionIs(rs, 2, 3, 1, 1);
    UnionIs(rs, 2, 4, 1, 2);
  }

  /** Why nothing may fail alone: the cache never sees the state between two acks. Here the first ack alone is one gap
      too many, while the two acks joined are not. */
  lemma CacheToleratesMore()
    ensures var s := Init().(acked := Scattered(), sizeInflight := 1020);
            var items := [AckItem(0, Sent(2, 3, NoMarker), true), AckItem(0, Sent(3, 4, NoMarker), true)];
            var l := Ledger(map[0 := s], {}, map[], false);
            ApplyAll(l, items).failed && !FeedAll(l, None, items).failed
  {
    hide Union, Difference, Scattered;
    ScatteredUnions();
    NothingToTake();
    var s := Init().(acked := Scattered(), sizeInflight := 1020);
    var items := [AckItem(0, Sent(2, 3, NoMarker), true), AckItem(0, Sent(3, 4, NoMarker), true)];
    var l := Ledger(map[0 := s], {}, map[], false);
    var l1 := ApplyOne(l, Entry(0, Sent(2, 3, NoMarker)));
    assert items[1..] == [items[1]] && items[1..][1..] == [];
    FailedApply(l1, items[1..]);
    var c1 := Some(Entry(0, Sent(2, 3, NoMarker)));
    var c2 := Some(Entry(0, Sent(2, 4, NoMarker)));
    assert Feed(l, None, items[0]) == (l, c1) && Feed(l, c1, items[1]) == (l, c2);
    assert FeedAll(l, c1, items[1..]) == FeedAll(l, c2, items[1..][1..]) == ApplyOne(l, c2.value);
  }

  lemma NothingToTake()
    ensures Difference([], 2, 3) == [] && Difference([], 2, 4) == []
  {
  }

  /** The cache as it is updated in place. */
  class AckCache {
    var ledger: Ledger
    var active: Option<Entry>

    ghost predicate Valid()
      reads this
    {
      Proper(ledger) && (active.Some? ==> Ordered(active.value))
    }

    method ApplyAck(e: Entry)
      requires Valid() && Ordered(e) && !ledger.failed
      modifies this`ledger
      ensures Valid() && ledger == ApplyOne(old(ledger), e)
      ensures e.id !in old(ledger).streams ==> ledger == old(ledger)
      ensures e.id in old(ledger).streams ==>
                var s := old(ledger).streams[e.id]; var s' := Acked(s, e.sent); var n := |s'.acked| + |s'.pending|;
                && s'.acked != [] && s.acked != []
                && (ledger.failed <==> n >= 256 && 128 * n > s'.sizeInflight - s'.acked[0].end)
                && (ledger.failed ==> ledger.shifted == old(ledger).shifted)
                && (!ledger.failed ==>
                      && (e.id !in ledger.streams <==>
                            e.id in ledger.received && s'.acked[0].end == s'.finalSize && s'.eos == Delivered)
                      && e.id in ledger.shifted
                      && ledger.shifted[e.id] == (if e.id in old(ledger).shifted then old(ledger).shifted[e.id] else 0)
                                                 + s'.acked[0].end - s.acked[0].end)
                && (e.id in ledger.streams ==> ledger.streams[e.id] == s')
    {
      hide Acked, Overloaded, Finished, ProperStream, ShiftOf;
      ApplyKeeps(ledger, e);
      if e.id !in ledger.streams {
        return;
      }
      var s := ledger.streams[e.id];
      AckMeans(s, e.sent);
      var s' := Acked(s, e.sent);
      ledger := ledger.(streams := ledger.streams[e.id := s']);
      if Overloaded(s') {
        ledger := ledger.(failed := true);
        return;
      }
      ledger := ledger.(shifted := Shifted(ledger, e.id, ShiftOf(s, e.sent)));
      if e.id in ledger.received && Finished(s') {
        ledger := ledger.(streams := ledger.streams - {e.id});
        assert ledger.streams == old(ledger).streams - {e.id};
      }
    }

    method FlushCache()
      requires Valid() && !ledger.failed
      modifies this
      ensures Valid() && ledger == Flush(old(ledger), old(active)) && active == None
    {
      if active.Some? {
        ApplyAck(active.value);
      }
      active := None;
    }

    method OnAck(item: AckItem)
      requires Valid() && item.sent.start <= item.sent.end && !ledger.failed
      modifies this
      ensures Valid() && (ledger, active) == Feed(old(ledger), old(active), item) && (ledger.failed ==> active == None)
      ensures !item.inFlight ==> active == None
      ensures item.inFlight && !ledger.failed ==>
                var c := old(active);
                if c.Some? && c.value.id == item.id && c.value.sent.end == item.sent.start
                then && ledger == old(ledger) && active.Some? && active.value.id == item.id
                     && active.value.sent.start == c.value.sent.start && active.value.sent.end == item.sent.end
                else active == Some(Entry(item.id, item.sent))
    {
      hide ApplyOne;
      if item.inFlight && active.Some? && active.value.id == item.id && active.value.sent.end == item.sent.start {
        var c := active.value.sent;
        var marker := if Level(item.sent.marker) > Level(c.marker) then item.sent.marker else c.marker;
        active := Some(Entry(item.id, Sent(c.start, item.sent.end, marker)));
      } else {
        FlushCache();
        if ledger.failed {
          return;
        }
        if item.inFlight {
          active := Some(Entry(item.id, item.sent));
        } else {
          ApplyAck(Entry(item.id, item.sent));
        }
      }
    }

    /** The acks of one ACK frame, with the flush at its end. */
    method OnAckFrame(items: seq<AckItem>)
      requires Valid() && active == None && Sane(items) && !ledger.failed
      modifies this
      ensures Valid() && active == None && ledger == ApplyEntries(old(ledger), Batched(None, items))
      ensures old(AllCurrent(ledger, items)) && !ApplyAll(old(ledger), items).failed ==>
                ledger == ApplyAll(old(ledger), items)
    {
      hide ApplyAll, ApplyOne, Feed, Flush, ApplyEntries, Batched;
      ghost var l0 := ledger;
      CacheApplies(l0, None, items);
      if AllCurrent(l0, items) && !ApplyAll(l0, items).failed {
        BatchingTransparent(l0, items);
      }
      var i := 0;
      assert items[0..] == items;
      while i < |items|
        invariant i <= |items| && Valid() && !ledger.failed
        invariant FeedAll(ledger, active, items[i..]) == FeedAll(l0, None, items)
      {
        assert items[i..][0] == items[i] && items[i..][1..] == items[i + 1..];
        OnAck(items[i]);
        if ledger.failed {
          FailedFeed(ledger, active, items[i + 1..]);
          return;
        }
        i := i + 1;
      }
      FlushCache();
    }
  }
}
