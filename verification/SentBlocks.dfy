/** The list of sent packets and frames as blocks of entries in memory (lib/sentmap.c): entries that were discarded
    leave tombstones, and a block is freed when its last entry goes. */
module SentBlocks {
  import opened Basics

  type Addr = nat

  datatype PacketInfo = PacketInfo(number: nat, sentAt: real, epoch: nat, ackEliciting: bool, framesInFlight: bool,
                                   ccBytes: nat)

  /** One entry; `Gone` is a tombstone. */
  datatype Slot = Gone | Header(info: PacketInfo) | Frame(id: nat)

  const BLOCK_SIZE: nat := 16

  datatype Block = Block(next: Option<Addr>, numEntries: nat, nextInsertAt: nat, entries: seq<Slot>)

  /** What points to a block: the head of the list, the link of the block before, or the dummy that stands in for the
      link once the tail was freed under the iterator. */
  datatype Ref = AtHead | NextOf(a: Addr) | Dummy

  /** `p` is an index into the block that `ref` points to; -1 stands before its first entry. */
  datatype Iter = Iter(atEnd: bool, p: int, count: nat, ref: Ref)

  // ----- live entries -----

  ghost function One(x: Slot): (r: seq<Slot>)
  {
    if x == Gone then [] else [x]
  }

  ghost function Live(s: seq<Slot>): (r: seq<Slot>)
  {
    if s == [] then [] else One(s[0]) + Live(s[1..])
  }

  lemma Regroup<T>(a: seq<T>, b: seq<T>, c: seq<T>)
    ensures (a + b) + c == a + (b + c)
  {
  }

  lemma {:induction false} LiveConcat(s: seq<Slot>, t: seq<Slot>)
    ensures Live(s + t) == Live(s) + Live(t)
    decreases |s|
  {
    hide One;
    if s == [] {
      assert s + t == t && Live(s) + Live(t) == Live(t);
    } else {
      LiveConcat(s[1..], t);
      assert (s + t)[1..] == s[1..] + t;
      Regroup(One(s[0]), Live(s[1..]), Live(t));
    }
  }

  lemma LiveOne(x: Slot)
    ensures Live([x]) == One(x)
  {
    assert Live([x]) == One(x) + Live([]);
  }

  lemma LiveAt(s: seq<Slot>, p: nat)
    requires p < |s|
    ensures Live(s) == Live(s[..p]) + One(s[p]) + Live(s[p + 1..])
    ensures Live(s[p..]) == One(s[p]) + Live(s[p + 1..])
    ensures Live(s[..p + 1]) == Live(s[..p]) + One(s[p])
  {
    hide Live, One;
    var a, x, b := s[..p], s[p], s[p + 1..];
    SplitAt(s, p);
    LiveConcat(a + [x], b);
    LiveConcat(a, [x]);
    LiveConcat([x], b);
    LiveOne(x);
  }

  lemma SplitAt<T>(s: seq<T>, p: nat)
    requires p < |s|
    ensures s == s[..p] + [s[p]] + s[p + 1..] && s[p..] == [s[p]] + s[p + 1..] && s[..p + 1] == s[..p] + [s[p]]
  {
  }

  lemma LiveBuried(s: seq<Slot>, p: nat)
    requires p < |s| && s[p] != Gone
    ensures Live(s[p := Gone]) == Live(s[..p]) + Live(s[p + 1..])
    ensures s[p := Gone][..p] == s[..p] && s[p := Gone][p + 1..] == s[p + 1..]
  {
    LiveAt(s[p := Gone], p);
  }

  /** The entries of a block that are in use. */
  ghost function Used(b: Block): (s: seq<Slot>)
  {
    if b.nextInsertAt <= |b.entries| then b.entries[..b.nextInsertAt] else []
  }

  ghost predicate BlockOk(b: Block)
  {
    |b.entries| == BLOCK_SIZE && b.nextInsertAt <= BLOCK_SIZE && 0 < b.numEntries == |Live(Used(b))|
  }

  // ----- the chain of blocks -----

  ghost function LiveIn(mem: map<Addr, Block>, a: Addr): (s: seq<Slot>)
  {
    if a in mem then Live(Used(mem[a])) else []
  }

  ghost function Flat(mem: map<Addr, Block>, chain: seq<Addr>): (s: seq<Slot>)
    decreases |chain|
  {
    if chain == [] then [] else LiveIn(mem, chain[0]) + Flat(mem, chain[1..])
  }

  lemma {:induction false} FlatConcat(mem: map<Addr, Block>, c: seq<Addr>, d: seq<Addr>)
    ensures Flat(mem, c + d) == Flat(mem, c) + Flat(mem, d)
    decreases |c|
  {
    hide LiveIn;
    if c == [] {
      assert c + d == d && Flat(mem, c) + Flat(mem, d) == Flat(mem, d);
    } else {
      FlatConcat(mem, c[1..], d);
      assert (c + d)[1..] == c[1..] + d;
      Regroup(LiveIn(mem, c[0]), Flat(mem, c[1..]), Flat(mem, d));
    }
  }

  lemma FlatAt(mem: map<Addr, Block>, chain: seq<Addr>, b: nat)
    requires b < |chain| && chain[b] in mem
    ensures Flat(mem, chain) == Flat(mem, chain[..b]) + Live(Used(mem[chain[b]])) + Flat(mem, chain[b + 1..])
    ensures Flat(mem, chain[..b + 1]) == Flat(mem, chain[..b]) + Live(Used(mem[chain[b]]))
  {
    hide Live, Flat;
    SplitAt(chain, b);
    FlatConcat(mem, chain[..b] + [chain[b]], chain[b + 1..]);
    FlatConcat(mem, chain[..b], [chain[b]]);
    FlatOne(mem, chain[b]);
  }

  lemma FlatOne(mem: map<Addr, Block>, a: Addr)
    ensures Flat(mem, [a]) == LiveIn(mem, a)
  {
    assert Flat(mem, [a]) == LiveIn(mem, a) + Flat(mem, []);
  }

  /** Blocks outside the chain do not matter, nor do links. */
  lemma {:induction false} FlatFrame(mem: map<Addr, Block>, mem': map<Addr, Block>, chain: seq<Addr>)
    requires forall a :: a in chain ==> (a in mem <==> a in mem') && (a in mem ==> Used(mem[a]) == Used(mem'[a]))
    ensures Flat(mem, chain) == Flat(mem', chain)
    decreases |chain|
  {
    if chain != [] {
      FlatFrame(mem, mem', chain[1..]);
    }
  }

  ghost predicate Distinct(chain: seq<Addr>)
  {
    forall i, j :: 0 <= i < j < |chain| ==> chain[i] != chain[j]
  }

  /** The address that follows the block at `i`. */
  ghost function After(chain: seq<Addr>, i: nat): (a: Option<Addr>)
  {
    if i < |chain| then Some(chain[i]) else None
  }

  ghost predicate Linked(mem: map<Addr, Block>, head: Option<Addr>, tail: Option<Addr>, chain: seq<Addr>)
  {
    && Distinct(chain) && head == After(chain, 0)
    && tail == (if chain == [] then None else Some(chain[|chain| - 1]))
    && forall i :: 0 <= i < |chain| ==>
         chain[i] in mem && BlockOk(mem[chain[i]]) && mem[chain[i]].next == After(chain, i + 1)
  }

  ghost predicate RefersTo(ref: Ref, chain: seq<Addr>, b: nat)
  {
    b < |chain| && ref == if b == 0 then AtHead else NextOf(chain[b - 1])
  }

  /** The iterator is at the entry with index `i` of the flat list, in block `b`. */
  ghost predicate At(mem: map<Addr, Block>, chain: seq<Addr>, it: Iter, b: nat, i: nat)
  {
    && !it.atEnd && RefersTo(it.ref, chain, b) && chain[b] in mem
    && var s := Used(mem[chain[b]]);
    && 0 <= it.p < |s| && s[it.p] != Gone && it.count == |Live(s[it.p..])|
    && i == |Flat(mem, chain[..b])| + |Live(s[..it.p])|
  }

  /** What follows the iterator is the flat list from index `i` on. */
  ghost predicate Before(mem: map<Addr, Block>, chain: seq<Addr>, it: Iter, b: nat, i: nat)
  {
    && !it.atEnd
    && if it.ref == Dummy then it.count == 1 && i == |Flat(mem, chain)|
       else
         && RefersTo(it.ref, chain, b) && chain[b] in mem
         && var s := Used(mem[chain[b]]);
         && -1 <= it.p < |s| && it.count == |Live(s[it.p + 1..])| + 1
         && i == |Flat(mem, chain[..b])| + |Live(s[..it.p + 1])|
  }

  lemma AtBefore(mem: map<Addr, Block>, chain: seq<Addr>, it: Iter, b: nat, i: nat)
    requires At(mem, chain, it, b, i)
    ensures Before(mem, chain, it, b, i + 1)
    ensures i < |Flat(mem, chain)| && Flat(mem, chain)[i] == mem[chain[b]].entries[it.p]
  {
    var s := Used(mem[chain[b]]);
    LiveAt(s, it.p);
    FlatAt(mem, chain, b);
  }

  /** The entry at index `p` of block `b` is the one with index `i` of the flat list. */
  ghost predicate Sits(mem: map<Addr, Block>, chain: seq<Addr>, b: nat, p: int, i: nat)
  {
    && b < |chain| && chain[b] in mem
    && var s := Used(mem[chain[b]]); 0 <= p < |s| && s[p] != Gone && i == |Flat(mem, chain[..b])| + |Live(s[..p])|
  }

  lemma AtSits(mem: map<Addr, Block>, chain: seq<Addr>, it: Iter, b: nat, i: nat)
    requires At(mem, chain, it, b, i)
    ensures Sits(mem, chain, b, it.p, i)
  {
  }

  lemma SitsIn(mem: map<Addr, Block>, chain: seq<Addr>, b: nat, p: int, i: nat)
    requires Sits(mem, chain, b, p, i)
    ensures i < |Flat(mem, chain)| && Flat(mem, chain)[i] == mem[chain[b]].entries[p]
  {
    LiveAt(Used(mem[chain[b]]), p);
    FlatAt(mem, chain, b);
  }
}
