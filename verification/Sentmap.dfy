/** The map of sent packets and its iterator, updated in place (lib/sentmap.c). */
module Sentmaps {
  import opened Basics
  import opened SentBlocks
  import opened SentPackets

  // ----- moving on -----

  lemma TombSkipped(s: seq<Slot>, p: nat)
    requires p < |s| && s[p] == Gone
    ensures Live(s[p + 1..]) == Live(s[p..]) && Live(s[..p + 1]) == Live(s[..p])
  {
    hide Live;
    LiveAt(s, p);
  }

  lemma NothingAtEnd(s: seq<Slot>)
    ensures Live(s[|s|..]) == []
  {
  }

  /** The first live entry at or after `p0`. */
  method SkipTombs(entries: seq<Slot>, p0: nat, ghost used: nat) returns (p: nat)
    requires p0 <= used <= |entries| && Live(entries[..used][p0..]) != []
    ensures p < used && entries[p] != Gone
    ensures Live(entries[..used][p..]) == Live(entries[..used][p0..])
            && Live(entries[..used][..p]) == Live(entries[..used][..p0])
  {
    hide Live;
    p := p0;
    ghost var s := entries[..used];
    NothingAtEnd(s);
    while entries[p] == Gone
      invariant p < used && Live(s[p..]) == Live(s[p0..]) && Live(s[..p]) == Live(s[..p0])
      decreases used - p
    {
      TombSkipped(s, p);
      NothingAtEnd(s);
      p := p + 1;
    }
  }

  lemma BlockEnds(mem: map<Addr, Block>, chain: seq<Addr>, it: Iter, b: nat, i: nat)
    requires Before(mem, chain, it, b, i) && it.ref != Dummy && it.count == 1
    ensures i == |Flat(mem, chain[..b + 1])| && (b + 1 == |chain| ==> i == |Flat(mem, chain)|)
  {
    hide Live, Flat;
    var s := Used(mem[chain[b]]);
    FlatAt(mem, chain, b);
    LiveConcat(s[..it.p + 1], s[it.p + 1..]);
    assert s == s[..it.p + 1] + s[it.p + 1..];
    assert b + 1 == |chain| ==> chain[..b + 1] == chain;
  }

  lemma BlockGoesOn(mem: map<Addr, Block>, chain: seq<Addr>, it: Iter, b: nat, i: nat)
    requires Before(mem, chain, it, b, i) && it.ref != Dummy && it.count > 1
    ensures i < |Flat(mem, chain)|
  {
    hide Live, Flat;
    var s := Used(mem[chain[b]]);
    FlatAt(mem, chain, b);
    LiveConcat(s[..it.p + 1], s[it.p + 1..]);
    assert s == s[..it.p + 1] + s[it.p + 1..];
  }

  lemma NextBlock(mem: map<Addr, Block>, chain: seq<Addr>, b: nat)
    requires b < |chain| && chain[b] in mem && BlockOk(mem[chain[b]])
    ensures |Flat(mem, chain[..b])| < |Flat(mem, chain)|
    ensures var s := Used(mem[chain[b]]); s[0..] == s && Live(s[0..]) != [] && Live(s[..0]) == []
  {
    FlatAt(mem, chain, b);
    var s := Used(mem[chain[b]]);
    assert s[0..] == s;
  }

  // ----- discarding -----

  /** Where an entry is buried, the flat list loses it. */
  lemma Buried(mem: map<Addr, Block>, chain: seq<Addr>, it: Iter, b: nat, i: nat, mem': map<Addr, Block>)
    requires Distinct(chain) && At(mem, chain, it, b, i) && (forall a :: a in chain ==> a in mem)
    requires var blk := mem[chain[b]];
             chain[b] in mem' && mem' == mem[chain[b] := blk.(numEntries := mem'[chain[b]].numEntries,
                                                              entries := blk.entries[it.p := Gone])]
    ensures i < |Flat(mem, chain)| && Flat(mem', chain) == Flat(mem, chain)[..i] + Flat(mem, chain)[i + 1..]
    ensures Before(mem', chain, it, b, i)
  {
    hide Live, Flat;
    var s := Used(mem[chain[b]]);
    BuriedUsed(mem, chain, it, b, i, mem');
    LiveAt(s, it.p);
    LiveBuried(s, it.p);
    FlatAt(mem, chain, b);
    FlatAt(mem', chain, b);
    CutOut(Flat(mem, chain[..b]), Live(s[..it.p]), s[it.p], Live(s[it.p + 1..]), Flat(mem, chain[b + 1..]));
    TombAt(Used(mem'[chain[b]]), it.p);
  }

  /** What the other blocks hold, and what the block itself does. */
  lemma BuriedUsed(mem: map<Addr, Block>, chain: seq<Addr>, it: Iter, b: nat, i: nat, mem': map<Addr, Block>)
    requires Distinct(chain) && At(mem, chain, it, b, i) && (forall a :: a in chain ==> a in mem)
    requires var blk := mem[chain[b]];
             chain[b] in mem' && mem' == mem[chain[b] := blk.(numEntries := mem'[chain[b]].numEntries,
                                                              entries := blk.entries[it.p := Gone])]
    ensures it.p < |Used(mem[chain[b]])| && Used(mem'[chain[b]]) == Used(mem[chain[b]])[it.p := Gone]
    ensures (forall a :: a in chain ==> a in mem')
    ensures Flat(mem', chain[..b]) == Flat(mem, chain[..b]) && Flat(mem', chain[b + 1..]) == Flat(mem, chain[b + 1..])
  {
    hide Live, Flat;
    FlatFrame(mem, mem', chain[..b]);
    FlatFrame(mem, mem', chain[b + 1..]);
  }

  lemma TombAt(s: seq<Slot>, p: nat)
    requires p < |s| && s[p] == Gone
    ensures Live(s[..p + 1]) == Live(s[..p])
  {
    hide Live;
    LiveAt(s, p);
  }

  lemma CutOut(f: seq<Slot>, u: seq<Slot>, x: Slot, v: seq<Slot>, g: seq<Slot>)
    ensures var all, i := f + (u + [x] + v) + g, |f| + |u|; f + (u + v) + g == all[..i] + all[i + 1..]
  {
    var all, i := f + (u + [x] + v) + g, |f| + |u|;
    assert all[..i] == f + u && all[i + 1..] == v + g;
  }

  /** The chain without a block whose entries are all gone, and whose place another mends. */
  lemma Unchained(mem: map<Addr, Block>, chain: seq<Addr>, b: nat, mem': map<Addr, Block>)
    requires Distinct(chain) && b < |chain| && (forall a :: a in chain ==> a in mem)
    requires Live(Used(mem[chain[b]])) == []
    requires forall a :: a in chain && a != chain[b] ==> a in mem' && Used(mem'[a]) == Used(mem[a])
    ensures var chain' := chain[..b] + chain[b + 1..];
            && Flat(mem', chain') == Flat(mem, chain) && Distinct(chain')
            && Flat(mem', chain[..b]) == Flat(mem, chain[..b]) && chain'[..b] == chain[..b]
  {
    hide Live, Flat, Used, Distinct;
    FlatAt(mem, chain, b);
    ChainWithout(chain, b);
    FlatFrame(mem, mem', chain[..b]);
    FlatFrame(mem, mem', chain[b + 1..]);
    FlatConcat(mem', chain[..b], chain[b + 1..]);
  }

  datatype Place = Place(block: Addr, p: nat)

  lemma ChainWithout(chain: seq<Addr>, b: nat)
    requires Distinct(chain) && b < |chain|
    ensures Distinct(chain[..b] + chain[b + 1..]) && (chain[..b] + chain[b + 1..])[..b] == chain[..b]
    ensures forall a :: a in chain[..b] ==> a in chain && a != chain[b]
    ensures forall a :: a in chain[b + 1..] ==> a in chain && a != chain[b]
  {
  }

  class Sentmap {
    var mem: map<Addr, Block>
    var head: Option<Addr>
    var tail: Option<Addr>
    /** addresses at or above this have never been allocated */
    var brk: Addr
    var numPackets: nat
    var bytesInFlight: nat
    /** where the header of the packet being written is, between Prepare and Commit */
    var pending: Option<Place>
    ghost var chain: seq<Addr>
    ghost var packets: seq<Packet>

    ghost predicate Valid()
      reads this
    {
      Linked(mem, head, tail, chain) && forall a :: a in mem ==> a < brk
    }

    /** The live entries, in order. */
    ghost function Contents(): (s: seq<Slot>)
      reads this
    {
      Flat(mem, chain)
    }

    constructor ()
      ensures Valid() && Contents() == [] && Tracks() && packets == [] && pending == None
    {
      mem, head, tail, chain := map[], None, None, [];
      brk, numPackets, bytesInFlight, pending, packets := 0, 0, 0, None, [];
    }

    /** The entries are those of `packets`, and the totals are theirs; the last packet may still be open. */
    ghost predicate Tracks()
      reads this
    {
      && Valid() && Contents() == Slots(packets) && bytesInFlight == Bytes(packets)
      && (pending == None ==> numPackets == |packets|)
      && (pending.Some? ==> && |packets| == numPackets + 1 && packets[numPackets].info.ccBytes == 0
                            && exists b :: InPlace(mem, chain, pending.value, b, Start(packets, numPackets)))
    }

    /** The iterator is at packet `k`, or at the end when there is no such packet. */
    ghost predicate OnPacket(it: Iter, b: nat, k: nat)
      reads this
    {
      k <= |packets| && Reaches(mem, chain, it, b, Start(packets, k))
    }

    method InitIter() returns (it: Iter, ghost b: nat)
      requires Valid()
      ensures Reaches(mem, chain, it, b, 0) && (Tracks() ==> OnPacket(it, b, 0))
    {
      b := 0;
      FirstStart(packets);
      if head.None? {
        return Iter(true, 0, 0, AtHead), 0;
      }
      hide Live, Flat;
      var blk := mem[head.value];
      NextBlock(mem, chain, 0);
      FlatOfNone(mem, chain);
      var p := SkipTombs(blk.entries, 0, blk.nextInsertAt);
      it := Iter(false, p, blk.numEntries, AtHead);
    }

    static lemma FlatOfNone(mem: map<Addr, Block>, chain: seq<Addr>)
      ensures Flat(mem, chain[..0]) == []
    {
    }

    /** Moves to the next live entry. */
    method NextEntry(it: Iter, ghost b: nat, ghost i: nat) returns (it': Iter, ghost b': nat)
      requires Valid() && Before(mem, chain, it, b, i)
      ensures Reaches(mem, chain, it', b', i)
    {
      hide Live, Flat, Linked, At, Before, BlockOk, Used;
      b' := b;
      if it.ref == Dummy {
        DummyEnds(mem, chain, it, b, i);
        return Iter(true, 0, 0, Dummy), b;
      }
      BeforeIn(mem, head, tail, chain, it, b, i);
      var here := Deref(mem, head, it.ref).value;
      var blk := mem[here];
      if it.count - 1 != 0 {
        BlockGoesOn(mem, chain, it, b, i);
        var p := SkipTombs(blk.entries, it.p + 1, blk.nextInsertAt);
        Arrived(mem, chain, it, b, i, p);
        it' := Iter(false, p, it.count - 1, it.ref);
      } else {
        BlockEnds(mem, chain, it, b, i);
        if blk.next.None? {
          return Iter(true, 0, 0, NextOf(here)), b;
        }
        b' := b + 1;
        NextIs(mem, head, tail, chain, b);
        NextBlock(mem, chain, b');
        var after := mem[blk.next.value];
        var p := SkipTombs(after.entries, 0, after.nextInsertAt);
        it' := Iter(false, p, after.numEntries, NextOf(here));
        ArrivedNext(mem, chain, it', b', i);
      }
    }

    /** Takes the block that `ref` points to, whose entries are all gone, out of the list. */
    method FreeBlock(ref: Ref, ghost b: nat) returns (ref': Ref)
      requires RefersTo(ref, chain, b) && Gapped(mem, head, tail, chain, b) && forall a :: a in mem ==> a < brk
      modifies this`mem, this`head, this`tail, this`chain
      ensures Valid() && Contents() == old(Contents()) && chain == old(chain)[..b] + old(chain)[b + 1..]
      ensures |Flat(mem, chain[..b])| == |old(Flat(mem, chain[..b]))|
      ensures if b < |chain| then ref' == ref else ref' == Dummy
    {
      hide Live, Flat, Linked, Gapped, BlockOk, Used;
      GapAt(mem, head, tail, chain, ref, b);
      var here := Deref(mem, head, ref).value;
      var next := mem[here].next;
      ghost var m0, h0, t0, c0 := mem, head, tail, chain;
      if ref == AtHead {
        head := next;
        tail := if next.Some? then tail else None;
        mem := mem - {here};
      } else {
        tail := if next.Some? then tail else Some(ref.a);
        mem := mem[ref.a := mem[ref.a].(next := next)] - {here};
      }
      ref' := if next.Some? then ref else Dummy;
      chain := chain[..b] + chain[b + 1..];
      Freed(m0, h0, t0, c0, b, mem, head, tail);
    }

    /** What the iterator points to; the sentinel at the end reads as a packet. */
    method Look(it: Iter, ghost b: nat, ghost i: nat) returns (x: Slot)
      requires Valid() && Reaches(mem, chain, it, b, i)
      ensures if i < |Contents()| then x == Contents()[i] else x == Header(END_OF_ITERATION)
      ensures it.atEnd <==> i == |Contents()|
    {
      hide Live, Flat, Linked, BlockOk, Used;
      if it.atEnd {
        return Header(END_OF_ITERATION);
      }
      AtIn(mem, head, tail, chain, it, b, i);
      AtSits(mem, chain, it, b, i);
      SitsIn(mem, chain, b, it.p, i);
      x := mem[Deref(mem, head, it.ref).value].entries[it.p];
    }

    /** The packet at the iterator. */
    method Get(it: Iter, ghost b: nat, ghost k: nat) returns (info: PacketInfo)
      requires Tracks() && OnPacket(it, b, k)
      ensures it.atEnd <==> k == |packets|
      ensures info == if k < |packets| then packets[k].info else END_OF_ITERATION
    {
      hide Live, Flat, Linked, BlockOk, Used, InPlace, Slots, Bytes, Reaches;
      StartBound(packets, k);
      if k < |packets| {
        SlotOf(packets, k, 0);
      }
      var x := Look(it, b, Start(packets, k));
      info := x.info;
    }

    /** Opens a packet. */
    method Prepare(number: nat, now: real, epoch: nat)
      requires Tracks() && pending == None
      modifies this
      ensures Tracks() && pending.Some?
      ensures packets == old(packets) + [Packet(PacketInfo(number, now, epoch, false, false, 0), [])]
    {
      hide Live, Flat, Linked, BlockOk, Used, InPlace, Slots, Bytes;
      var info := PacketInfo(number, now, epoch, false, false, 0);
      SlotsGrow(packets, Packet(info, []));
      BytesGrow(packets, Packet(info, []));
      var at; ghost var b;
      at, b := Allocate(Header(info));
      pending := Some(at);
      packets := packets + [Packet(info, [])];
    }

    /** Records a frame of the open packet. */
    method AddFrame(id: nat)
      requires Tracks() && pending.Some?
      modifies this
      ensures Tracks() && pending == old(pending) && numPackets == old(numPackets)
      ensures packets == old(packets)[..numPackets]
              + [Packet(old(packets)[numPackets].info, old(packets)[numPackets].frames + [id])]
    {
      hide Live, Flat, Linked, BlockOk, Used, InPlace, Slots, Bytes;
      ghost var ps, p := packets[..numPackets], packets[numPackets];
      assert packets == ps + [p];
      SlotsAddFrame(ps, p, id);
      BytesGrow(ps, p);
      BytesGrow(ps, Packet(p.info, p.frames + [id]));
      assert (ps + [Packet(p.info, p.frames + [id])])[..numPackets] == packets[..numPackets];
      ghost var i := Start(packets, numPackets);
      ghost var b0: nat :| InPlace(mem, chain, pending.value, b0, i);
      var at; ghost var b;
      at, b := Allocate(Frame(id));
      packets := ps + [Packet(p.info, p.frames + [id])];
      assert InPlace(mem, chain, pending.value, b0, i);
      assert Start(packets, numPackets) == i;
      assert Contents() == Slots(packets);
      assert bytesInFlight == Bytes(packets);
    }

    /** Closes the open packet, which is in flight from then on. */
    method Commit(bytes: nat)
      requires Tracks() && pending.Some?
      modifies this
      ensures Tracks() && pending == None && numPackets == old(numPackets) + 1
      ensures var p := old(packets[numPackets]);
              && packets == old(packets)[old(numPackets) := Packet(Committed(p.info, bytes), p.frames)]
              && packets[old(numPackets)].info
                 == p.info.(framesInFlight := true, ackEliciting := p.info.ackEliciting || bytes != 0,
                            ccBytes := if bytes == 0 then p.info.ccBytes else bytes)
    {
      hide Live, Flat, Linked, BlockOk, Used, InPlace, Slots, Bytes;
      ghost var p := packets[numPackets];
      ghost var b :| InPlace(mem, chain, pending.value, b, Start(packets, numPackets));
      SlotsSetHeader(packets, numPackets, Committed(p.info, bytes));
      SlotOf(packets, numPackets, 0);
      BytesSet(packets, numPackets, Packet(Committed(p.info, bytes), p.frames));
      ReadPlace(mem, head, tail, chain, pending.value, b, Start(packets, numPackets));
      var x := mem[pending.value.block].entries[pending.value.p];
      SetEntry(pending.value, Header(Committed(x.info, bytes)), b, Start(packets, numPackets));
      bytesInFlight := bytesInFlight + bytes;
      packets := packets[numPackets := Packet(Committed(p.info, bytes), p.frames)];
      pending := None;
      numPackets := numPackets + 1;
    }

    /** Moves to the next packet. */
    method Skip(it: Iter, ghost b: nat, ghost k: nat) returns (it': Iter, ghost b': nat)
      requires Tracks() && OnPacket(it, b, k) && k < |packets|
      ensures OnPacket(it', b', k + 1)
    {
      hide Live, Flat, Linked, BlockOk, Used, InPlace, Slots, Bytes, At, Before, Reaches, Start;
      StartBound(packets, k);
      ghost var j, i := 0, Start(packets, k) + 1;
      ReachesBefore(mem, chain, it, b, i - 1);
      it', b' := NextEntry(it, b, i);
      SkipNext(packets, k, j);
      var x := Look(it', b', i);
      while !x.Header?
        invariant 0 <= j <= |packets[k].frames| && i == Start(packets, k) + 1 + j && Reaches(mem, chain, it', b', i)
        invariant i <= |Contents()| && if i < |Contents()| then x == Contents()[i] else x.Header?
        decreases |packets[k].frames| - j
      {
        SkipNext(packets, k, j);
        j, i := j + 1, i + 1;
        ReachesBefore(mem, chain, it', b', i - 1);
        it', b' := NextEntry(it', b', i);
        SkipNext(packets, k, j);
        x := Look(it', b', i);
      }
      SkipNext(packets, k, j);
    }

    /** Applies an event to the packet at the iterator and moves to the next packet. The frames are told in order; the
        callback numbered `failAt` is the first to fail, after which no more frames are told. */
    method Update(it: Iter, e: Event, failAt: Option<nat>, ghost b: nat, ghost k: nat)
      returns (ok: bool, it': Iter, reported: seq<nat>, ghost b': nat)
      requires Tracks() && pending == None && OnPacket(it, b, k) && k < |packets|
      modifies this
      ensures Tracks() && pending == None && packets == SentPackets.Updated(old(packets), k, e)
      ensures OnPacket(it', b', if Discards(e) then k else k + 1)
      ensures var p := old(packets)[k];
              && reported == (if Notifies(p.info, e) then p.frames[..FramesTold(|p.frames|, failAt)] else [])
              && (ok <==> !Notifies(p.info, e) || AllSucceed(|p.frames|, failAt))
              && reported == (if e != AckedEvent && !p.info.framesInFlight then []
                              else if failAt.Some? && failAt.value < |p.frames| then p.frames[..failAt.value + 1]
                              else p.frames)
      ensures var i := old(packets)[k].info;
              && (e == AckedEvent || e == ExpiredEvent ==> packets == old(packets)[..k] + old(packets)[k + 1..])
              && (e == LostEvent ==>
                    packets == old(packets)[k := Packet(i.(framesInFlight := false, ccBytes := 0),
                                                        old(packets)[k].frames)])
              && (e == PtoEvent ==>
                    packets == old(packets)[k := Packet(i.(framesInFlight := false), old(packets)[k].frames)])
    {
      hide Live, Flat, Linked, BlockOk, Used, InPlace, Slots, Bytes, At, Before, Partial, PartialAt,
           SentPackets.Updated, Reaches, Start, Told;
      ghost var ps, p := packets, packets[k];
      UpdatedIs(ps, k, e);
      SlotOf(ps, k, 0);
      StartBound(ps, k);
      var x := Look(it, b, Start(ps, k));
      var info := x.info;
      UpdatedBytes(ps, k, e);
      if info.ccBytes != 0 && e != PtoEvent {
        BytesAt(ps, k);
        bytesInFlight := bytesInFlight - info.ccBytes;
      }
      it' := StartUpdate(it, e, info, b, k);
      ok, it', reported, b' := TellFrames(it', e, failAt, Notifies(info, e), b, ps, k);
      packets := SentPackets.Updated(ps, k, e);
      UpdatedSize(ps, k, e);
      StartBound(packets, if Discards(e) then k else k + 1);
    }

    /** The frames' part of `Update`: the loop over the entries up to the next header. */
    method TellFrames(it: Iter, e: Event, failAt: Option<nat>, notify0: bool, ghost b: nat, ghost ps: seq<Packet>,
                      ghost k: nat)
      returns (ok: bool, it': Iter, reported: seq<nat>, ghost b': nat)
      requires Valid() && k < |ps| && Contents() == Partial(ps, k, e, 0)
               && Before(mem, chain, it, b, PartialAt(ps, k, e, 0))
      requires notify0 == Notifies(ps[k].info, e)
      modifies this`mem, this`head, this`tail, this`chain
      ensures Valid() && Contents() == Slots(SentPackets.Updated(ps, k, e))
              && (if Discards(e) then k else k + 1) <= |SentPackets.Updated(ps, k, e)|
      ensures Reaches(mem, chain, it', b', Start(SentPackets.Updated(ps, k, e), if Discards(e) then k else k + 1))
      ensures reported == (if notify0 then ps[k].frames[..FramesTold(|ps[k].frames|, failAt)] else [])
      ensures ok <==> !notify0 || AllSucceed(|ps[k].frames|, failAt)
    {
      hide Live, Flat, Linked, BlockOk, Used, Slots, At, Before, Partial, PartialAt, SentPackets.Updated, Reaches,
           Start, Told;
      ghost var p := ps[k];
      var notify := notify0;
      reported, ok := [], true;
      ghost var j := 0;
      ToldNone(p, e, failAt);
      PartialNext(ps, k, e, 0);
      it', b' := NextEntry(it, b, PartialAt(ps, k, e, 0));
      var x := Look(it', b', PartialAt(ps, k, e, 0));
      while !x.Header?
        invariant 0 <= j <= |p.frames| && Valid() && Contents() == Partial(ps, k, e, j)
        invariant Reaches(mem, chain, it', b', PartialAt(ps, k, e, j))
        invariant if PartialAt(ps, k, e, j) < |Contents()| then x == Contents()[PartialAt(ps, k, e, j)] else x.Header?
        invariant Told(p, e, failAt, j, notify, reported, ok)
        decreases |p.frames| - j
      {
        PartialNext(ps, k, e, j);
        ToldOne(p, e, failAt, j, notify, reported, ok);
        if notify {
          reported := reported + [x.id];
          if failAt == Some(|reported| - 1) {
            ok, notify := false, false;
          }
        }
        it' := Move(it', e, b', ps, k, j);
        j := j + 1;
        PartialNext(ps, k, e, j);
        it', b' := NextEntry(it', b', PartialAt(ps, k, e, j));
        x := Look(it', b', PartialAt(ps, k, e, j));
      }
      PartialNext(ps, k, e, j);
      ToldAll(p, e, failAt, notify, reported, ok);
      UpdatedSize(ps, k, e);
    }

    /** The header's part of `Update`: it is no longer in flight, and goes if the event discards. */
    method StartUpdate(it: Iter, e: Event, info: PacketInfo, ghost b: nat, ghost k: nat) returns (it': Iter)
      requires Valid() && Contents() == Slots(packets) && OnPacket(it, b, k) && k < |packets| && info == packets[k].info
      requires numPackets == |packets|
      modifies this`mem, this`head, this`tail, this`chain, this`numPackets
      ensures Valid() && Contents() == Partial(packets, k, e, 0)
              && Before(mem, chain, it', b, PartialAt(packets, k, e, 0))
      ensures numPackets == if Discards(e) then |packets| - 1 else |packets|
    {
      hide Live, Flat, Linked, BlockOk, Used, Slots, At, Before, Sits;
      StartBound(packets, k);
      ghost var i := Start(packets, k);
      AtIn(mem, head, tail, chain, it, b, i);
      AtSits(mem, chain, it, b, i);
      SlotsSetHeader(packets, k, Settled(info, e));
      PartialStart(packets, k, e);
      SetEntry(Place(Deref(mem, head, it.ref).value, it.p), Header(Settled(info, e)), b, i);
      if Discards(e) {
        it' := DiscardEntry(it, b, i);
        numPackets := numPackets - 1;
      } else {
        AtBefore(mem, chain, it, b, i);
        it' := it;
      }
    }

    /** A frame's part of `Update`. */
    method Move(it: Iter, e: Event, ghost b: nat, ghost ps: seq<Packet>, ghost k: nat, ghost j: nat) returns (it': Iter)
      requires Valid() && k < |ps| && j < |ps[k].frames| && Contents() == Partial(ps, k, e, j)
      requires PartialAt(ps, k, e, j) < |Contents()| && Reaches(mem, chain, it, b, PartialAt(ps, k, e, j))
      modifies this`mem, this`head, this`tail, this`chain
      ensures Valid() && Contents() == Partial(ps, k, e, j + 1)
              && Before(mem, chain, it', b, PartialAt(ps, k, e, j + 1))
    {
      hide Live, Flat, Linked, BlockOk, Used, Slots, At, Before;
      if Discards(e) {
        PartialDiscard(ps, k, e, j);
        it' := DiscardEntry(it, b, PartialAt(ps, k, e, j));
      } else {
        AtBefore(mem, chain, it, b, PartialAt(ps, k, e, j));
        it' := it;
      }
    }

    /** Appends a block without entries. */
    method NewBlock()
      requires Valid() && (tail.Some? ==> mem[tail.value].nextInsertAt == BLOCK_SIZE)
      modifies this`mem, this`head, this`tail, this`brk, this`chain
      ensures Growing(mem, head, tail, chain) && (forall a :: a in mem ==> a < brk) && Contents() == old(Contents())
      ensures forall at, b, i :: old(InPlace(mem, chain, at, b, i)) ==> InPlace(mem, chain, at, b, i)
    {
      hide Live, Flat, BlockOk, InPlace, Linked, Growing;
      ghost var m0, h0, t0, c0 := mem, head, tail, chain;
      TailIn(mem, head, tail, chain);
      var block := Block(None, 0, 0, seq(BLOCK_SIZE, _ => Gone));
      if tail.Some? {
        mem := mem[tail.value := mem[tail.value].(next := Some(brk))][brk := block];
      } else {
        mem, head := mem[brk := block], Some(brk);
      }
      tail, chain := Some(brk), chain + [brk];
      Chained(m0, h0, t0, c0, brk, block, mem, head);
      brk := brk + 1;
    }

    /** Appends an entry. */
    method Allocate(x: Slot) returns (at: Place, ghost b: nat)
      requires Valid() && x != Gone
      modifies this`mem, this`head, this`tail, this`brk, this`chain
      ensures Valid() && Contents() == old(Contents()) + [x] && InPlace(mem, chain, at, b, |old(Contents())|)
      ensures forall at', b', i :: old(InPlace(mem, chain, at', b', i)) ==> InPlace(mem, chain, at', b', i)
    {
      hide Live, Flat, BlockOk, InPlace, Linked, Growing;
      TailIn(mem, head, tail, chain);
      if tail.None? || mem[tail.value].nextInsertAt == BLOCK_SIZE {
        NewBlock();
      } else {
        RoomLeft(mem, head, tail, chain);
      }
      GrowingTail(mem, head, tail, chain);
      ghost var m1 := mem;
      var blk := mem[tail.value];
      at := Place(tail.value, blk.nextInsertAt);
      b := |chain| - 1;
      mem := mem[tail.value := Block(blk.next, blk.numEntries + 1, blk.nextInsertAt + 1,
                                     blk.entries[blk.nextInsertAt := x])];
      Appended(m1, head, tail, chain, x, mem);
    }

    /** Overwrites an entry. */
    method SetEntry(at: Place, x: Slot, ghost b: nat, ghost i: nat)
      requires Valid() && InPlace(mem, chain, at, b, i) && x != Gone
      modifies this`mem
      ensures Valid() && i < |old(Contents())| && Contents() == old(Contents())[i := x]
      ensures forall it, j: nat :: old(At(mem, chain, it, b, j)) ==> At(mem, chain, it, b, j)
    {
      hide Live, Flat, Linked, At, Sits, BlockOk, Used;
      PlaceIn(mem, head, tail, chain, at, b, i);
      var blk := mem[at.block];
      ghost var mem0 := mem;
      mem := mem[at.block := blk.(entries := blk.entries[at.p := x])];
      Rewritten(mem0, head, tail, chain, at, b, i, x, mem);
    }

    /** Discards the entry at the iterator, which then stands before what follows it, even if its block was freed. */
    method DiscardEntry(it: Iter, ghost b: nat, ghost i: nat) returns (it': Iter)
      requires Valid() && At(mem, chain, it, b, i)
      modifies this`mem, this`head, this`tail, this`chain
      ensures Valid() && i < |old(Contents())| && Contents() == old(Contents())[..i] + old(Contents())[i + 1..]
      ensures Before(mem, chain, it', b, i)
    {
      hide Live, Flat, Linked, Gapped, At, Before, BlockOk, Used;
      AtIn(mem, head, tail, chain, it, b, i);
      var here := Deref(mem, head, it.ref).value;
      var blk := mem[here];
      var blk' := blk.(numEntries := blk.numEntries - 1, entries := blk.entries[it.p := Gone]);
      ghost var mem0 := mem;
      mem := mem[here := blk'];
      BuriedBlock(mem0, head, tail, chain, it, b, i, mem);
      it' := it;
      if blk'.numEntries == 0 {
        var ref := FreeBlock(it.ref, b);
        if ref == Dummy {
          it' := Iter(false, -1, 1, Dummy);
        } else {
          DerefIs(mem, head, tail, chain, ref, b);
          it' := Iter(false, -1, mem[Deref(mem, head, ref).value].numEntries + 1, ref);
        }
        Restarted(mem, head, tail, chain, it', b, i);
      }
    }
  }

  /** After moving on, the iterator is at index `i`, or at the end. */
  ghost predicate Reaches(mem: map<Addr, Block>, chain: seq<Addr>, it: Iter, b: nat, i: nat)
  {
    if i < |Flat(mem, chain)| then At(mem, chain, it, b, i) else i == |Flat(mem, chain)| && it.atEnd
  }

  lemma ReachesBefore(mem: map<Addr, Block>, chain: seq<Addr>, it: Iter, b: nat, i: nat)
    requires Reaches(mem, chain, it, b, i) && i < |Flat(mem, chain)|
    ensures Before(mem, chain, it, b, i + 1)
  {
    AtBefore(mem, chain, it, b, i);
  }

  ghost predicate InPlace(mem: map<Addr, Block>, chain: seq<Addr>, at: Place, b: nat, i: nat)
  {
    b < |chain| && chain[b] == at.block && Sits(mem, chain, b, at.p, i)
  }

  /** The block that a reference points to. */
  function Deref(mem: map<Addr, Block>, head: Option<Addr>, ref: Ref): (a: Option<Addr>)
  {
    match ref
    case AtHead => head
    case NextOf(a) => if a in mem then mem[a].next else None
    case Dummy => None
  }

  lemma DerefIs(mem: map<Addr, Block>, head: Option<Addr>, tail: Option<Addr>, chain: seq<Addr>, ref: Ref, b: nat)
    requires Linked(mem, head, tail, chain) && RefersTo(ref, chain, b)
    ensures Deref(mem, head, ref) == Some(chain[b]) && chain[b] in mem && BlockOk(mem[chain[b]])
    ensures ref.NextOf? ==> ref.a in mem
  {
    assert b > 0 ==> mem[chain[b - 1]].next == After(chain, b - 1 + 1);
  }

  lemma DummyEnds(mem: map<Addr, Block>, chain: seq<Addr>, it: Iter, b: nat, i: nat)
    requires Before(mem, chain, it, b, i) && it.ref == Dummy
    ensures i == |Flat(mem, chain)|
  {
  }

  lemma BeforeIn(mem: map<Addr, Block>, head: Option<Addr>, tail: Option<Addr>, chain: seq<Addr>, it: Iter, b: nat,
                 i: nat)
    requires Linked(mem, head, tail, chain) && Before(mem, chain, it, b, i) && it.ref != Dummy
    ensures RefersTo(it.ref, chain, b) && Deref(mem, head, it.ref) == Some(chain[b]) && chain[b] in mem && it.count >= 1
    ensures var blk := mem[chain[b]];
            && 0 <= it.p + 1 <= blk.nextInsertAt <= |blk.entries| && Used(blk) == blk.entries[..blk.nextInsertAt]
            && it.count == |Live(Used(blk)[it.p + 1..])| + 1
            && (blk.next == None <==> b + 1 == |chain|)
  {
    hide Live, Flat;
    DerefIs(mem, head, tail, chain, it.ref, b);
  }

  lemma NextIs(mem: map<Addr, Block>, head: Option<Addr>, tail: Option<Addr>, chain: seq<Addr>, b: nat)
    requires Linked(mem, head, tail, chain) && b + 1 < |chain|
    ensures chain[b] in mem && mem[chain[b]].next == Some(chain[b + 1]) && chain[b + 1] in mem
            && BlockOk(mem[chain[b + 1]])
    ensures var blk := mem[chain[b + 1]];
            blk.nextInsertAt <= |blk.entries| && Used(blk) == blk.entries[..blk.nextInsertAt]
                && blk.numEntries == |Live(Used(blk))|
  {
  }

  lemma Arrived(mem: map<Addr, Block>, chain: seq<Addr>, it: Iter, b: nat, i: nat, p: nat)
    requires Before(mem, chain, it, b, i) && it.ref != Dummy && it.count > 1
    requires var s := Used(mem[chain[b]]);
             p < |s| && s[p] != Gone && Live(s[p..]) == Live(s[it.p + 1..]) && Live(s[..p]) == Live(s[..it.p + 1])
    ensures At(mem, chain, Iter(false, p, it.count - 1, it.ref), b, i)
  {
    hide Live, Flat;
  }

  lemma ArrivedNext(mem: map<Addr, Block>, chain: seq<Addr>, it: Iter, b: nat, i: nat)
    requires RefersTo(it.ref, chain, b) && chain[b] in mem && i == |Flat(mem, chain[..b])| && !it.atEnd
    requires var s := Used(mem[chain[b]]);
             0 <= it.p < |s| && s[it.p] != Gone && it.count == |Live(s[it.p..])| && Live(s[..it.p]) == []
    ensures At(mem, chain, it, b, i)
  {
    hide Live, Flat;
  }

  /** A well-linked list, but for one block in which nothing is live. */
  ghost predicate Gapped(mem: map<Addr, Block>, head: Option<Addr>, tail: Option<Addr>, chain: seq<Addr>, b: nat)
  {
    && Distinct(chain) && b < |chain| && head == After(chain, 0) && tail == Some(chain[|chain| - 1])
    && (forall k :: 0 <= k < |chain| ==> chain[k] in mem && mem[chain[k]].next == After(chain, k + 1)
                                         && (k != b ==> BlockOk(mem[chain[k]])))
    && Live(Used(mem[chain[b]])) == []
  }

  lemma GapAt(mem: map<Addr, Block>, head: Option<Addr>, tail: Option<Addr>, chain: seq<Addr>, ref: Ref, b: nat)
    requires Gapped(mem, head, tail, chain, b) && RefersTo(ref, chain, b)
    ensures Deref(mem, head, ref) == Some(chain[b]) && chain[b] in mem && mem[chain[b]].next == After(chain, b + 1)
    ensures ref.NextOf? ==> b > 0 && ref.a == chain[b - 1] && ref.a in mem && ref.a != chain[b]
    ensures ref.AtHead? ==> b == 0
  {
    hide Live, Flat, BlockOk;
    assert b > 0 ==> mem[chain[b - 1]].next == After(chain, b - 1 + 1);
  }

  lemma Freed(m: map<Addr, Block>, h: Option<Addr>, t: Option<Addr>, c: seq<Addr>, b: nat,
              m': map<Addr, Block>, h': Option<Addr>, t': Option<Addr>)
    requires Gapped(m, h, t, c, b)
    requires var next := m[c[b]].next;
             if b == 0 then m' == m - {c[b]} && h' == next && t' == (if next.Some? then t else None)
             else m' == m[c[b - 1] := m[c[b - 1]].(next := next)] - {c[b]} && h' == h
                  && t' == (if next.Some? then t else Some(c[b - 1]))
    ensures var c' := c[..b] + c[b + 1..];
            && Linked(m', h', t', c') && Flat(m', c') == Flat(m, c)
            && |Flat(m', c'[..b])| == |Flat(m, c[..b])| && (b < |c'| <==> m[c[b]].next.Some?)
  {
    hide Live, Flat, BlockOk, Used, Linked;
    var c' := c[..b] + c[b + 1..];
    UsedKept(m, c, b, m');
    Unchained(m, c, b, m');
    forall k | 0 <= k < |c'| ensures c'[k] in m' && BlockOk(m'[c'[k]]) && m'[c'[k]].next == After(c', k + 1) {
      RelinkedAt(m, c, b, m', c', k);
    }
    FreedEnds(m, h, t, c, b, h', t');
    LinkedIs(m', h', t', c');
  }

  lemma LinkedIs(m: map<Addr, Block>, h: Option<Addr>, t: Option<Addr>, c: seq<Addr>)
    requires Distinct(c) && h == After(c, 0) && t == (if c == [] then None else Some(c[|c| - 1]))
    requires forall k :: 0 <= k < |c| ==> c[k] in m && BlockOk(m[c[k]]) && m[c[k]].next == After(c, k + 1)
    ensures Linked(m, h, t, c)
  {
  }

  lemma FreedEnds(m: map<Addr, Block>, h: Option<Addr>, t: Option<Addr>, c: seq<Addr>, b: nat, h': Option<Addr>,
                  t': Option<Addr>)
    requires Gapped(m, h, t, c, b)
    requires var next := m[c[b]].next;
             if b == 0 then h' == next && t' == (if next.Some? then t else None)
             else h' == h && t' == (if next.Some? then t else Some(c[b - 1]))
    ensures var c' := c[..b] + c[b + 1..];
            && h' == After(c', 0) && t' == (if c' == [] then None else Some(c'[|c'| - 1]))
            && (b < |c'| <==> m[c[b]].next.Some?)
  {
    hide Live, Flat, BlockOk, Used;
    assert m[c[b]].next == After(c, b + 1);
  }

  /** The block before the one that was freed now links to the one after it; no other block changes. */
  lemma MendedAt(m: map<Addr, Block>, c: seq<Addr>, b: nat, m': map<Addr, Block>, k: nat)
    requires Distinct(c) && b < |c| && k < |c| && k != b && c[k] in m && c[b] in m && (b > 0 ==> c[b - 1] in m)
    requires if b == 0 then m' == m - {c[b]}
             else m' == m[c[b - 1] := m[c[b - 1]].(next := m[c[b]].next)] - {c[b]}
    ensures c[k] in m' && m'[c[k]] == if k + 1 == b then m[c[k]].(next := m[c[b]].next) else m[c[k]]
  {
  }

  lemma UsedKept(m: map<Addr, Block>, c: seq<Addr>, b: nat, m': map<Addr, Block>)
    requires Distinct(c) && b < |c| && forall k :: 0 <= k < |c| ==> c[k] in m
    requires if b == 0 then m' == m - {c[b]}
             else m' == m[c[b - 1] := m[c[b - 1]].(next := m[c[b]].next)] - {c[b]}
    ensures forall a :: a in c ==> a in m
    ensures forall a :: a in c && a != c[b] ==> a in m' && Used(m'[a]) == Used(m[a])
  {
    forall a | a in c && a != c[b] ensures a in m' && Used(m'[a]) == Used(m[a]) {
      var k :| 0 <= k < |c| && c[k] == a;
      MendedAt(m, c, b, m', k);
    }
  }

  lemma RelinkedAt(m: map<Addr, Block>, c: seq<Addr>, b: nat, m': map<Addr, Block>, c': seq<Addr>, k: nat)
    requires b < |c| && Distinct(c) && c' == c[..b] + c[b + 1..] && k < |c'|
    requires forall j :: 0 <= j < |c| ==> c[j] in m && m[c[j]].next == After(c, j + 1) && (j != b ==> BlockOk(m[c[j]]))
    requires if b == 0 then m' == m - {c[b]}
             else m' == m[c[b - 1] := m[c[b - 1]].(next := m[c[b]].next)] - {c[b]}
    ensures c'[k] in m' && BlockOk(m'[c'[k]]) && m'[c'[k]].next == After(c', k + 1)
  {
    hide BlockOk, After;
    var j := if k < b then k else k + 1;
    assert c'[k] == c[j];
    MendedAt(m, c, b, m', j);
    LinkIgnored(m[c[j]], m[c[b]].next);
    AfterGap(c, b, k);
  }

  lemma AfterGap(c: seq<Addr>, b: nat, k: nat)
    requires b < |c| && k + 1 < |c|
    ensures After(c[..b] + c[b + 1..], k + 1) == After(c, if k < b && k + 1 < b then k + 1 else k + 2)
  {
  }

  lemma LinkIgnored(blk: Block, next: Option<Addr>)
    requires BlockOk(blk)
    ensures BlockOk(blk.(next := next))
  {
  }

  lemma AtIn(mem: map<Addr, Block>, head: Option<Addr>, tail: Option<Addr>, chain: seq<Addr>, it: Iter, b: nat, i: nat)
    requires Linked(mem, head, tail, chain) && At(mem, chain, it, b, i)
    ensures RefersTo(it.ref, chain, b) && Deref(mem, head, it.ref) == Some(chain[b]) && chain[b] in mem
    ensures var blk := mem[chain[b]]; 0 <= it.p < |blk.entries| && blk.numEntries > 0
    ensures i < |Flat(mem, chain)|
  {
    hide Live, Flat;
    DerefIs(mem, head, tail, chain, it.ref, b);
    AtBefore(mem, chain, it, b, i);
  }

  /** Burying the entry at the iterator. */
  lemma BuriedBlock(mem: map<Addr, Block>, head: Option<Addr>, tail: Option<Addr>, chain: seq<Addr>, it: Iter, b: nat,
                    i: nat, mem': map<Addr, Block>)
    requires Linked(mem, head, tail, chain) && At(mem, chain, it, b, i) && 0 < mem[chain[b]].numEntries
    requires var blk := mem[chain[b]];
             mem' == mem[chain[b] := blk.(numEntries := blk.numEntries - 1, entries := blk.entries[it.p := Gone])]
    ensures i < |Flat(mem, chain)| && Flat(mem', chain) == Flat(mem, chain)[..i] + Flat(mem, chain)[i + 1..]
    ensures if mem'[chain[b]].numEntries == 0 then Gapped(mem', head, tail, chain, b) && i == |Flat(mem', chain[..b])|
            else Linked(mem', head, tail, chain) && Before(mem', chain, it, b, i)
  {
    hide Live, Flat, Before, Linked, Gapped, BlockOk, Used;
    InMemory(mem, head, tail, chain);
    Buried(mem, chain, it, b, i, mem');
    BuriedLinks(mem, head, tail, chain, b, it.p, mem');
    BuriedFirst(mem, chain, it, b, i, mem');
  }

  lemma InMemory(mem: map<Addr, Block>, head: Option<Addr>, tail: Option<Addr>, chain: seq<Addr>)
    requires Linked(mem, head, tail, chain)
    ensures Distinct(chain) && forall a :: a in chain ==> a in mem && BlockOk(mem[a])
  {
  }

  lemma BuriedCount(s: seq<Slot>, p: nat)
    requires p < |s| && s[p] != Gone
    ensures |Live(s[p := Gone])| + 1 == |Live(s)| && |Live(s[..p])| <= |Live(s[p := Gone])|
  {
    hide Live;
    LiveAt(s, p);
    LiveBuried(s, p);
  }

  lemma BuriedLinks(mem: map<Addr, Block>, head: Option<Addr>, tail: Option<Addr>, chain: seq<Addr>, b: nat, p: nat,
                    mem': map<Addr, Block>)
    requires Linked(mem, head, tail, chain) && b < |chain| && 0 < mem[chain[b]].numEntries
    requires p < |Used(mem[chain[b]])| && Used(mem[chain[b]])[p] != Gone
    requires var blk := mem[chain[b]];
             mem' == mem[chain[b] := blk.(numEntries := blk.numEntries - 1, entries := blk.entries[p := Gone])]
    ensures if mem'[chain[b]].numEntries == 0 then Gapped(mem', head, tail, chain, b)
            else Linked(mem', head, tail, chain)
  {
    hide Live, After;
    var s := Used(mem[chain[b]]);
    assert Used(mem'[chain[b]]) == s[p := Gone];
    BuriedCount(s, p);
    forall k | 0 <= k < |chain| && k != b ensures chain[k] in mem' && mem'[chain[k]] == mem[chain[k]] {
    }
  }

  lemma BuriedFirst(mem: map<Addr, Block>, chain: seq<Addr>, it: Iter, b: nat, i: nat, mem': map<Addr, Block>)
    requires At(mem, chain, it, b, i) && Distinct(chain) && BlockOk(mem[chain[b]])
    requires var blk := mem[chain[b]];
             mem' == mem[chain[b] := blk.(numEntries := blk.numEntries - 1, entries := blk.entries[it.p := Gone])]
    ensures mem'[chain[b]].numEntries == 0 ==> i == |Flat(mem', chain[..b])|
  {
    hide Live, Flat;
    BuriedCount(Used(mem[chain[b]]), it.p);
    FlatFrame(mem, mem', chain[..b]);
  }

  /** Right before a block. */
  lemma Restarted(mem: map<Addr, Block>, head: Option<Addr>, tail: Option<Addr>, chain: seq<Addr>, it: Iter, b: nat,
                  i: nat)
    requires Linked(mem, head, tail, chain) && b <= |chain| && i == |Flat(mem, chain[..b])| && !it.atEnd && it.p == -1
    requires if b == |chain| then it.ref == Dummy && it.count == 1
             else RefersTo(it.ref, chain, b) && chain[b] in mem && it.count == mem[chain[b]].numEntries + 1
    ensures Before(mem, chain, it, b, i)
  {
    if b == |chain| {
      assert chain[..b] == chain;
    } else {
      var s := Used(mem[chain[b]]);
      assert s[0..] == s && Live(s[..0]) == [];
    }
  }

  // ----- overwriting -----

  lemma PlaceIn(mem: map<Addr, Block>, head: Option<Addr>, tail: Option<Addr>, chain: seq<Addr>, at: Place, b: nat,
                i: nat)
    requires Linked(mem, head, tail, chain) && InPlace(mem, chain, at, b, i)
    ensures at.block in mem && at.p < |mem[at.block].entries|
  {
  }

  lemma LiveSet(s: seq<Slot>, p: nat, x: Slot)
    requires p < |s| && s[p] != Gone && x != Gone
    ensures Live(s) == Live(s[..p]) + [s[p]] + Live(s[p + 1..])
    ensures Live(s[p := x]) == Live(s[..p]) + [x] + Live(s[p + 1..])
    ensures s[p := x][..p] == s[..p]
  {
    hide Live;
    LiveAt(s, p);
    LiveAt(s[p := x], p);
    assert s[p := x][..p] == s[..p] && s[p := x][p + 1..] == s[p + 1..];
  }

  lemma {:induction false} LiveLength(s: seq<Slot>, s': seq<Slot>)
    requires |s| == |s'| && forall k :: 0 <= k < |s| ==> (s[k] == Gone <==> s'[k] == Gone)
    ensures |Live(s)| == |Live(s')|
    decreases |s|
  {
    if s != [] {
      LiveLength(s[1..], s'[1..]);
    }
  }

  lemma SetInside(f: seq<Slot>, u: seq<Slot>, x: Slot, y: Slot, v: seq<Slot>, g: seq<Slot>)
    ensures f + (u + [y] + v) + g == (f + (u + [x] + v) + g)[|f| + |u| := y]
  {
  }

  lemma Rewritten(mem: map<Addr, Block>, head: Option<Addr>, tail: Option<Addr>, chain: seq<Addr>, at: Place, b: nat,
                  i: nat, x: Slot, mem': map<Addr, Block>)
    requires Linked(mem, head, tail, chain) && InPlace(mem, chain, at, b, i) && x != Gone
    requires var blk := mem[chain[b]];
             at.p < |blk.entries| && mem' == mem[chain[b] := blk.(entries := blk.entries[at.p := x])]
    ensures Linked(mem', head, tail, chain)
    ensures i < |Flat(mem, chain)| && Flat(mem', chain) == Flat(mem, chain)[i := x]
    ensures forall it, j: nat :: At(mem, chain, it, b, j) ==> At(mem', chain, it, b, j)
  {
    hide Live, Flat, At, Linked, BlockOk;
    InMemory(mem, head, tail, chain);
    var s := Used(mem[chain[b]]);
    assert Used(mem'[chain[b]]) == s[at.p := x];
    LiveSet(s, at.p, x);
    FlatAt(mem, chain, b);
    FlatAt(mem', chain, b);
    FlatFrame(mem, mem', chain[..b]);
    FlatFrame(mem, mem', chain[b + 1..]);
    SetInside(Flat(mem, chain[..b]), Live(s[..at.p]), s[at.p], x, Live(s[at.p + 1..]), Flat(mem, chain[b + 1..]));
    RewrittenLinks(mem, head, tail, chain, b, at.p, x, mem');
    forall it, j: nat | At(mem, chain, it, b, j) ensures At(mem', chain, it, b, j) {
      RewrittenAt(mem, chain, b, at.p, x, mem', it, j);
    }
  }

  lemma RewrittenLinks(mem: map<Addr, Block>, head: Option<Addr>, tail: Option<Addr>, chain: seq<Addr>, b: nat, p: nat,
                       x: Slot, mem': map<Addr, Block>)
    requires Linked(mem, head, tail, chain) && b < |chain| && p < |Used(mem[chain[b]])|
             && Used(mem[chain[b]])[p] != Gone && x != Gone
    requires var blk := mem[chain[b]]; mem' == mem[chain[b] := blk.(entries := blk.entries[p := x])]
    ensures Linked(mem', head, tail, chain)
  {
    hide Live;
    var s := Used(mem[chain[b]]);
    assert Used(mem'[chain[b]]) == s[p := x];
    LiveLength(s, s[p := x]);
    forall k | 0 <= k < |chain| && k != b ensures chain[k] in mem' && mem'[chain[k]] == mem[chain[k]] {
    }
  }

  lemma RewrittenAt(mem: map<Addr, Block>, chain: seq<Addr>, b: nat, p: nat, x: Slot, mem': map<Addr, Block>, it: Iter,
                    j: nat)
    requires At(mem, chain, it, b, j) && Distinct(chain) && p < |Used(mem[chain[b]])| && Used(mem[chain[b]])[p] != Gone
             && x != Gone
    requires forall a :: a in chain ==> a in mem
    requires var blk := mem[chain[b]]; mem' == mem[chain[b] := blk.(entries := blk.entries[p := x])]
    ensures At(mem', chain, it, b, j)
  {
    hide Live, Flat;
    var s := Used(mem[chain[b]]);
    var s' := s[p := x];
    assert Used(mem'[chain[b]]) == s';
    LiveLength(s[it.p..], s'[it.p..]);
    LiveLength(s[..it.p], s'[..it.p]);
    FlatFrame(mem, mem', chain[..b]);
  }

  // ----- appending -----

  /** A well-linked list whose last block has room, and may be empty. */
  ghost predicate Growing(mem: map<Addr, Block>, head: Option<Addr>, tail: Option<Addr>, chain: seq<Addr>)
  {
    && Distinct(chain) && chain != [] && head == After(chain, 0) && tail == Some(chain[|chain| - 1])
    && (forall k :: 0 <= k < |chain| ==> chain[k] in mem && mem[chain[k]].next == After(chain, k + 1)
                                         && (k + 1 < |chain| ==> BlockOk(mem[chain[k]])))
    && var t := mem[chain[|chain| - 1]];
       |t.entries| == BLOCK_SIZE && t.nextInsertAt < BLOCK_SIZE && t.numEntries == |Live(Used(t))|
  }

  lemma TailIn(mem: map<Addr, Block>, head: Option<Addr>, tail: Option<Addr>, chain: seq<Addr>)
    requires Linked(mem, head, tail, chain)
    ensures tail == None <==> chain == []
    ensures tail == None ==> head == None
    ensures tail.Some? ==>
              tail.value in mem && tail.value == chain[|chain| - 1] && mem[tail.value].nextInsertAt <= BLOCK_SIZE
  {
  }

  lemma RoomLeft(mem: map<Addr, Block>, head: Option<Addr>, tail: Option<Addr>, chain: seq<Addr>)
    requires Linked(mem, head, tail, chain) && chain != [] && mem[chain[|chain| - 1]].nextInsertAt < BLOCK_SIZE
    ensures Growing(mem, head, tail, chain)
  {
  }

  lemma GrowingTail(mem: map<Addr, Block>, head: Option<Addr>, tail: Option<Addr>, chain: seq<Addr>)
    requires Growing(mem, head, tail, chain)
    ensures chain != [] && tail == Some(chain[|chain| - 1]) && tail.value in mem
    ensures mem[tail.value].nextInsertAt < |mem[tail.value].entries|
  {
  }

  lemma Chained(m: map<Addr, Block>, h: Option<Addr>, t: Option<Addr>, c: seq<Addr>, a: Addr, blk: Block,
                m': map<Addr, Block>, h': Option<Addr>)
    requires Linked(m, h, t, c) && (forall x :: x in m ==> x < a)
    requires blk.next == None && blk.numEntries == 0 == blk.nextInsertAt && |blk.entries| == BLOCK_SIZE
    requires c == [] ==> m' == m[a := blk] && h' == Some(a)
    requires c != [] ==> h' == h && c[|c| - 1] in m && m' == m[c[|c| - 1] := m[c[|c| - 1]].(next := Some(a))][a := blk]
    ensures Growing(m', h', Some(a), c + [a]) && Flat(m', c + [a]) == Flat(m, c)
    ensures forall at, b, i :: InPlace(m, c, at, b, i) ==> InPlace(m', c + [a], at, b, i)
    ensures forall x :: x in m' ==> x <= a
  {
    hide Live, Flat, InPlace, Growing, Linked, BlockOk, Used;
    InMemory(m, h, t, c);
    UsedStays(m, c, a, blk, m');
    FlatFrame(m, m', c);
    FlatConcat(m', c, [a]);
    FlatOne(m', a);
    NothingUsed(blk);
    ChainedLinks(m, h, t, c, a, blk, m', h');
    assert (c + [a])[..|c|] == c;
    forall at, b, i | InPlace(m, c, at, b, i) ensures InPlace(m', c + [a], at, b, i) {
      InPlaceBlock(m, c, at, b, i);
      StaysInPlace(m, c, m', c + [a], at, b, i);
    }
  }

  lemma NothingUsed(blk: Block)
    requires blk.nextInsertAt == 0
    ensures Live(Used(blk)) == []
  {
  }

  lemma UsedStays(m: map<Addr, Block>, c: seq<Addr>, a: Addr, blk: Block, m': map<Addr, Block>)
    requires (forall x :: x in c ==> x in m) && (forall x :: x in m ==> x < a)
    requires c == [] ==> m' == m[a := blk]
    requires c != [] ==> m' == m[c[|c| - 1] := m[c[|c| - 1]].(next := Some(a))][a := blk]
    ensures forall x :: x in c ==> x in m' && Used(m'[x]) == Used(m[x])
  {
  }

  lemma ChainedLinks(m: map<Addr, Block>, h: Option<Addr>, t: Option<Addr>, c: seq<Addr>, a: Addr, blk: Block,
                     m': map<Addr, Block>, h': Option<Addr>)
    requires Linked(m, h, t, c) && (forall x :: x in m ==> x < a)
    requires blk.next == None && blk.numEntries == 0 == blk.nextInsertAt && |blk.entries| == BLOCK_SIZE
    requires c == [] ==> m' == m[a := blk] && h' == Some(a)
    requires c != [] ==> h' == h && m' == m[c[|c| - 1] := m[c[|c| - 1]].(next := Some(a))][a := blk]
    ensures Growing(m', h', Some(a), c + [a])
  {
    hide Live, Flat, BlockOk, Used;
    NothingUsed(blk);
    var c' := c + [a];
    forall k | 0 <= k < |c'|
      ensures c'[k] in m' && m'[c'[k]].next == After(c', k + 1) && (k + 1 < |c'| ==> BlockOk(m'[c'[k]]))
    {
      if k < |c| {
        LinkIgnored(m[c[k]], Some(a));
        assert k + 1 < |c| ==> c[k] != c[|c| - 1];
      }
    }
  }

  lemma StaysInPlace(m: map<Addr, Block>, c: seq<Addr>, m': map<Addr, Block>, c': seq<Addr>, at: Place, b: nat, i: nat)
    requires InPlace(m, c, at, b, i) && |c| <= |c'| && c'[..|c|] == c
    requires forall x :: x in c ==> x in m && x in m' && Used(m[x]) <= Used(m'[x])
    requires forall k :: 0 <= k < b ==> Used(m[c[k]]) == Used(m'[c[k]])
    ensures InPlace(m', c', at, b, i)
  {
    hide Live, Flat;
    assert c'[b] == c'[..|c|][b] && c[b] in c;
    assert c'[..b] == c[..b];
    FlatFrame(m, m', c[..b]);
    var s, s' := Used(m[c[b]]), Used(m'[c[b]]);
    assert s'[..at.p] == s[..at.p];
  }

  lemma Appended(m: map<Addr, Block>, h: Option<Addr>, t: Option<Addr>, c: seq<Addr>, x: Slot, m': map<Addr, Block>)
    requires Growing(m, h, t, c) && x != Gone
    requires var blk := m[c[|c| - 1]];
             && blk.nextInsertAt < |blk.entries|
             && m' == m[c[|c| - 1] := Block(blk.next, blk.numEntries + 1, blk.nextInsertAt + 1,
                                            blk.entries[blk.nextInsertAt := x])]
    ensures Linked(m', h, t, c) && Flat(m', c) == Flat(m, c) + [x]
    ensures InPlace(m', c, Place(c[|c| - 1], m[c[|c| - 1]].nextInsertAt), |c| - 1, |Flat(m, c)|)
    ensures forall at, b, i :: InPlace(m, c, at, b, i) ==> InPlace(m', c, at, b, i)
  {
    hide Live, Flat, InPlace, Linked, Growing;
    GrowingFacts(m, h, t, c);
    var n: nat := |c| - 1;
    var s, s' := Used(m[c[n]]), Used(m'[c[n]]);
    assert s' == s + [x];
    LiveConcat(s, [x]);
    LiveOne(x);
    FlatAt(m, c, n);
    FlatAt(m', c, n);
    FlatFrame(m, m', c[..n]);
    LastOnes(m, c);
    LastOnes(m', c);
    Regroup(Flat(m, c[..n]), Live(s), [x]);
    AppendedLinks(m, h, t, c, x, m');
    NewInPlace(m', c, s, x, |Flat(m, c)|);
    forall at, b, i | InPlace(m, c, at, b, i) ensures InPlace(m', c, at, b, i) {
      InPlaceBlock(m, c, at, b, i);
      StaysInPlace(m, c, m', c, at, b, i);
    }
  }

  lemma InPlaceBlock(m: map<Addr, Block>, c: seq<Addr>, at: Place, b: nat, i: nat)
    requires InPlace(m, c, at, b, i)
    ensures b < |c|
  {
  }

  lemma LastOnes(m: map<Addr, Block>, c: seq<Addr>)
    requires c != []
    ensures Flat(m, c[|c|..]) == []
  {
  }

  lemma GrowingFacts(m: map<Addr, Block>, h: Option<Addr>, t: Option<Addr>, c: seq<Addr>)
    requires Growing(m, h, t, c)
    ensures c != [] && Distinct(c) && (forall x :: x in c ==> x in m) && |m[c[|c| - 1]].entries| == BLOCK_SIZE
  {
  }

  lemma AppendedLinks(m: map<Addr, Block>, h: Option<Addr>, t: Option<Addr>, c: seq<Addr>, x: Slot,
                      m': map<Addr, Block>)
    requires Growing(m, h, t, c) && x != Gone
    requires var blk := m[c[|c| - 1]];
             m' == m[c[|c| - 1] := Block(blk.next, blk.numEntries + 1, blk.nextInsertAt + 1,
                                         blk.entries[blk.nextInsertAt := x])]
    ensures Linked(m', h, t, c)
  {
    hide Live, Flat;
    var n := |c| - 1;
    var s, s' := Used(m[c[n]]), Used(m'[c[n]]);
    assert s' == s + [x];
    LiveConcat(s, [x]);
    LiveOne(x);
    forall k | 0 <= k < n ensures c[k] in m' && m'[c[k]] == m[c[k]] {
    }
  }

  lemma NewInPlace(m: map<Addr, Block>, c: seq<Addr>, s: seq<Slot>, x: Slot, i: nat)
    requires c != [] && c[|c| - 1] in m && Used(m[c[|c| - 1]]) == s + [x] && x != Gone
    requires i == |Flat(m, c[..|c| - 1])| + |Live(s)|
    ensures InPlace(m, c, Place(c[|c| - 1], |s|), |c| - 1, i)
  {
    hide Live, Flat;
    assert (s + [x])[..|s|] == s;
  }

  lemma ReadPlace(mem: map<Addr, Block>, head: Option<Addr>, tail: Option<Addr>, chain: seq<Addr>, at: Place, b: nat,
                  i: nat)
    requires Linked(mem, head, tail, chain) && InPlace(mem, chain, at, b, i)
    ensures at.block in mem && at.p < |mem[at.block].entries|
    ensures i < |Flat(mem, chain)| && Flat(mem, chain)[i] == mem[at.block].entries[at.p]
  {
    hide Live, Flat;
    SitsIn(mem, chain, b, at.p, i);
  }

  lemma FirstStart(ps: seq<Packet>)
    ensures Start(ps, 0) == 0
  {
  }

  // ----- callbacks -----

  /** Which of the first `j` frames were told, and whether all callbacks succeeded. */
  ghost predicate Told(p: Packet, e: Event, failAt: Option<nat>, j: nat, notify: bool, reported: seq<nat>, ok: bool)
  {
    && j <= |p.frames| && (notify <==> Notifies(p.info, e) && AllSucceed(j, failAt))
    && reported == (if Notifies(p.info, e) then p.frames[..FramesTold(j, failAt)] else [])
    && (ok <==> !Notifies(p.info, e) || AllSucceed(j, failAt))
  }

  lemma ToldNone(p: Packet, e: Event, failAt: Option<nat>)
    ensures Told(p, e, failAt, 0, Notifies(p.info, e), [], true)
  {
  }

  lemma ToldOne(p: Packet, e: Event, failAt: Option<nat>, j: nat, notify: bool, reported: seq<nat>, ok: bool)
    requires Told(p, e, failAt, j, notify, reported, ok) && j < |p.frames|
    ensures !notify ==> Told(p, e, failAt, j + 1, notify, reported, ok)
    ensures notify ==> var r := reported + [p.frames[j]]; var fails := failAt == Some(|r| - 1);
                       Told(p, e, failAt, j + 1, !fails, r, ok && !fails) && ok
  {
  }

  lemma ToldAll(p: Packet, e: Event, failAt: Option<nat>, notify: bool, reported: seq<nat>, ok: bool)
    requires Told(p, e, failAt, |p.frames|, notify, reported, ok)
    ensures reported == (if Notifies(p.info, e) then p.frames[..FramesTold(|p.frames|, failAt)] else [])
    ensures ok <==> !Notifies(p.info, e) || AllSucceed(|p.frames|, failAt)
  {
  }
}
