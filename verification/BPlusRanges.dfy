/** The B+ tree of received ranges (lib/bplus_ranges.c): adding a range, merging it with the ranges it touches. */
module BPlusRanges {
  import opened Basics
  import opened Ranges
  import opened BPlusNodes
  import opened BPlusTrees
  import opened BPlusOrders
  import opened BPlusPaths
  import opened BPlusInserts
  import opened BPlusDeletes

  const MAX_RANGES: nat := 0x40_0000
  const MIN_MAX_RANGES: nat := 63
  const BYTES_PER_RANGE: nat := 1024
  const MAX_HEIGHT: nat := 8

  datatype Status = Ok | StateExhaustion | NoMemory

  /** The cap on the number of ranges: one per 1024 bytes that the peer may still send, at least 63, at most 2^22. */
  function CalcMaxRanges(firstEnd: nat, maxCommitted: nat): (n: nat)
    requires firstEnd <= maxCommitted
    ensures 63 <= n <= 0x40_0000
    ensures forall k: nat :: k >= n <==> k >= 63 && (k >= 0x40_0000 || 1024 * k > maxCommitted - firstEnd)
  {
    var n := (maxCommitted - firstEnd) / BYTES_PER_RANGE + 1;
    if n < MIN_MAX_RANGES then MIN_MAX_RANGES else if n > MAX_RANGES then MAX_RANGES else n
  }

  // ----- one range of the tree -----

  lemma RangeAt(t: Tree, path: seq<Entry>)
    requires Tracks(t, path) && path[|path| - 1].slot >= 0
    ensures 0 <= Index(t, path) < |Flat(t)|
    ensures Flat(t)[Index(t, path)] == Sub(t, Steps(path)).rs[path[|path| - 1].slot]
  {
    FlatSplit(t, Steps(path));
  }

  /** What the slot that a path addresses holds. */
  lemma SlotAt(m: map<Addr, Node>, t: Tree, h: nat, path: seq<Entry>)
    requires Stands(m, t, h) && |path| == h && Tracks(t, path) && path[h - 1].slot >= 0
    ensures h >= 1
    ensures var leaf, slot := path[h - 1].node, path[h - 1].slot;
            && leaf in m && m[leaf].LeafNode? && |m[leaf].ranges| == FANOUT && slot < FANOUT
            && OnPath(t, Steps(path)) && Sub(t, Steps(path)).Leaf? && slot < |Sub(t, Steps(path)).rs|
            && 0 <= Index(t, path) < |Flat(t)| && Index(t, path) == |Left(t, Steps(path))| + slot
            && m[leaf].ranges[slot] == Flat(t)[Index(t, path)] && m[leaf].ranges[slot].start < UINT64_MAX
  {
    LeafOf(m, t, h, path);
    RangeAt(t, path);
  }

  lemma ReplaceInside<T>(a: seq<T>, b: seq<T>, c: seq<T>, i: nat, x: T)
    requires i < |b|
    ensures a + b[i := x] + c == (a + b + c)[|a| + i := x]
  {
  }

  /** The tree with one range of the leaf at `p` replaced. */
  ghost function Edited(t: Tree, p: seq<int>, slot: nat, r: Range): Tree
    requires OnPath(t, p) && Sub(t, p).Leaf? && slot < |Sub(t, p).rs|
  {
    Plug(t, p, Leaf(Sub(t, p).addr, Sub(t, p).rs[slot := r]))
  }

  lemma EditedFacts(m: map<Addr, Node>, m': map<Addr, Node>, t: Tree, h: nat, p: seq<int>, slot: nat, r: Range)
    requires Stands(m, t, h) && m.Keys == Addrs(t) && FilledRoot(t) && OnPath(t, p) && Sub(t, p).Leaf?
             && slot < |Sub(t, p).rs|
    requires Holds(m', Edited(t, p, slot, r)) && m'.Keys == m.Keys
    ensures var t' := Edited(t, p, slot, r);
            && Stands(m', t', h) && m'.Keys == Addrs(t') && FilledRoot(t') && t'.addr == t.addr
            && FirstLeaf(t').addr == FirstLeaf(t).addr && LastOf(t') == LastOf(t)
            && |Left(t, p)| + slot < |Flat(t)| && Flat(t') == Flat(t)[|Left(t, p)| + slot := r]
  {
    hide Distinct, Addrs, HasHeight, FillAround, Flat, First, Left, Right, Plug, LastLeaf, FirstLeaf, Holds, Sub,
         OnPath, Rightmost;
    var leaf := Sub(t, p);
    var s := Leaf(leaf.addr, leaf.rs[slot := r]);
    FilledRootSplits(t, p);
    LeafSwapped(m, m', t, h, p, s);
    LeafFill(leaf, s, p == []);
    FilledRootJoins(Plug(t, p, s), p);
    LastLeafOnPath(t, p);
    FlatSplit(t, p);
    LeafFlat(leaf);
    ReplaceInside(Left(t, p), leaf.rs, Right(t, p), slot, r);
  }

  lemma LeafFill(a: Tree, b: Tree, isRoot: bool)
    requires a.Leaf? && b.Leaf? && |a.rs| == |b.rs| && (if isRoot then FilledRoot(a) else Filled(a))
    ensures if isRoot then FilledRoot(b) else Filled(b)
  {
  }

  lemma AscendingEdit(rs: seq<Range>, i: nat, r: Range)
    requires AscendingStarts(rs) && i < |rs| && r.start <= rs[i].start && (i > 0 ==> rs[i - 1].start < r.start)
    ensures AscendingStarts(rs[i := r])
  {
    var rs' := rs[i := r];
    forall j, k | 0 <= j < k < |rs'| ensures rs'[j].start < rs'[k].start {
      if k == i {
        assert rs[j].start <= rs[i - 1].start;
      }
    }
  }

  /** The path to the last leaf. */
  ghost function LastPath(t: Tree): seq<int>
    decreases t
  {
    if t.Leaf? || t.kids == [] then [] else [|t.kids| - 1] + LastPath(t.kids[|t.kids| - 1])
  }

  lemma {:induction false} LastPathFacts(t: Tree, h: nat)
    requires HasHeight(t, h)
    ensures OnPath(t, LastPath(t)) && Sub(t, LastPath(t)) == LastLeaf(t) && LastLeaf(t).Leaf?
            && Right(t, LastPath(t)) == []
    ensures |LastPath(t)| + 1 == h
    decreases t
  {
    if t.Fork? {
      var i := |t.kids| - 1;
      LastPathFacts(t.kids[i], h - 1);
      assert LastPath(t)[1..] == LastPath(t.kids[i]);
      assert t.kids[i + 1..] == [];
    }
  }

  lemma AfterEdit(m: map<Addr, Node>, m': map<Addr, Node>, t: Tree, h: nat, path: seq<Entry>, r: Range)
    requires Stands(m, t, h) && m.Keys == Addrs(t) && FilledRoot(t) && |path| == h && Tracks(t, path)
             && path[h - 1].slot >= 0
    requires Holds(m', Edited(t, Steps(path), path[h - 1].slot, r)) && m'.Keys == m.Keys
    ensures var t' := Edited(t, Steps(path), path[h - 1].slot, r);
            && Stands(m', t', h) && m'.Keys == Addrs(t') && FilledRoot(t') && t'.addr == t.addr
            && FirstLeaf(t').addr == FirstLeaf(t).addr && LastOf(t') == LastOf(t)
            && 0 <= Index(t, path) < |Flat(t)| && Flat(t') == Flat(t)[Index(t, path) := r]
  {
    EditedFacts(m, m', t, h, Steps(path), path[h - 1].slot, r);
  }

  lemma EndEdited(m: map<Addr, Node>, m': map<Addr, Node>, t: Tree, h: nat, path: seq<Entry>, r: Range)
    requires Stands(m, t, h) && m.Keys == Addrs(t) && FilledRoot(t) && |path| == h && Tracks(t, path)
             && path[h - 1].slot >= 0
    requires path[h - 1].node in m && m[path[h - 1].node].LeafNode? && |m[path[h - 1].node].ranges| == FANOUT
    requires path[h - 1].slot < FANOUT && r.start == m[path[h - 1].node].ranges[path[h - 1].slot].start
    requires m' == m[path[h - 1].node := LeafNode(m[path[h - 1].node].ranges[path[h - 1].slot := r])]
    ensures var t' := Edited(t, Steps(path), path[h - 1].slot, r);
            && Stands(m', t', h) && m'.Keys == Addrs(t') && FilledRoot(t') && t'.addr == t.addr
            && FirstLeaf(t').addr == FirstLeaf(t).addr && LastOf(t') == LastOf(t)
            && 0 <= Index(t, path) < |Flat(t)| && Flat(t') == Flat(t)[Index(t, path) := r]
  {
    hide Distinct, Addrs, HasHeight, FillAround, Flat, Left, Right, LastLeaf, FirstLeaf, FilledRoot;
    LeafOf(m, t, h, path);
    var p, slot := Steps(path), path[h - 1].slot;
    var leaf := Sub(t, p);
    var s := Leaf(leaf.addr, leaf.rs[slot := r]);
    LeafAddrs(t, path, s);
    Graft(m, m', t, p, s);
    AfterEdit(m, m', t, h, path, r);
  }

  /** After the start of a range was lowered, memory holds the new leaf, and the new tree unless the range is the first
      one of its leaf. */
  lemma StartEdited(m: map<Addr, Node>, m': map<Addr, Node>, t: Tree, h: nat, path: seq<Entry>, r: Range)
    requires Stands(m, t, h) && m.Keys == Addrs(t) && |path| == h && Tracks(t, path) && path[h - 1].slot >= 0
    requires path[h - 1].node in m && m[path[h - 1].node].LeafNode? && |m[path[h - 1].node].ranges| == FANOUT
    requires path[h - 1].slot < FANOUT && r.start < UINT64_MAX
    requires m' == m[path[h - 1].node := LeafNode(m[path[h - 1].node].ranges[path[h - 1].slot := r])]
    ensures var s := Leaf(path[h - 1].node, Sub(t, Steps(path)).rs[path[h - 1].slot := r]);
            && s.addr == Sub(t, Steps(path)).addr && Holds(m', s) && Agree(m, m', Addrs(t) - {s.addr})
            && m'.Keys == m.Keys
            && (path[h - 1].slot == 0 ==> First(s) == r.start)
            && Edited(t, Steps(path), path[h - 1].slot, r) == Plug(t, Steps(path), s)
            && (path[h - 1].slot > 0 ==> Holds(m', Plug(t, Steps(path), s)))
            && Holds(m, t) && Distinct(t)
  {
    hide Distinct, Addrs, HasHeight, FillAround, Flat, Left, Right, LastLeaf, FirstLeaf, FilledRoot;
    LeafOf(m, t, h, path);
    var p, slot := Steps(path), path[h - 1].slot;
    var s := Leaf(Sub(t, p).addr, Sub(t, p).rs[slot := r]);
    LeafAddrs(t, path, s);
    if slot > 0 {
      Graft(m, m', t, p, s);
    }
  }

  lemma StandingHeight(m: map<Addr, Node>, t: Tree, h: nat)
    requires Stands(m, t, h) && FilledRoot(t)
    ensures |Flat(t)| < MAX_RANGES ==> h < MAX_HEIGHT
    ensures |Flat(t)| <= MAX_RANGES ==> h <= MAX_HEIGHT
  {
    HeightBound(t, h);
  }

  // ----- the two ends -----

  lemma LastRangeAt(m: map<Addr, Node>, t: Tree, h: nat)
    requires Stands(m, t, h) && FilledRoot(t)
    ensures var ref, p := LastOf(t), LastPath(t);
            && ref.leaf in m && m[ref.leaf].LeafNode? && |m[ref.leaf].ranges| == FANOUT && 0 <= ref.slot < FANOUT
            && OnPath(t, p) && Sub(t, p).Leaf? && Sub(t, p).addr == ref.leaf && ref.slot < |Sub(t, p).rs|
            && |Left(t, p)| + ref.slot == |Flat(t)| - 1
            && m[ref.leaf].ranges[ref.slot] == Flat(t)[|Flat(t)| - 1]
            && LeafHolds(m[ref.leaf].ranges, Sub(t, p).rs)
  {
    hide Distinct, Addrs, FillAround, LastLeaf, LastPath, Holds, HasHeight, FirstLeaf, Sub, OnPath, Left, Right,
         FilledRoot;
    var p := LastPath(t);
    LastPathFacts(t, h);
    FlatSplit(t, p);
    LeafAt(m, t, h, p);
    FilledRootSplits(t, p);
    LeafNotEmpty(Sub(t, p), p == []);
  }

  lemma LeafNotEmpty(leaf: Tree, isRoot: bool)
    requires leaf.Leaf? && (if isRoot then FilledRoot(leaf) else Filled(leaf))
    ensures leaf.rs != []
  {
  }

  lemma {:induction false} FirstLeafHolds(m: map<Addr, Node>, t: Tree, h: nat)
    requires Holds(m, t) && HasHeight(t, h) && (Filled(t) || FilledRoot(t))
    ensures var f := FirstLeaf(t);
            && f.Leaf? && f.rs != [] && f.addr in m && m[f.addr].LeafNode? && LeafHolds(m[f.addr].ranges, f.rs)
            && Flat(t) != [] && Flat(t)[0] == f.rs[0]
    decreases t
  {
    if t.Fork? {
      FirstLeafHolds(m, t.kids[0], h - 1);
    }
  }

  lemma LastExtended(m: map<Addr, Node>, m': map<Addr, Node>, t: Tree, h: nat, end: nat)
    requires Stands(m, t, h) && m.Keys == Addrs(t) && FilledRoot(t) && AscendingStarts(Flat(t))
    requires var ref := LastOf(t);
             && ref.leaf in m && m[ref.leaf].LeafNode? && |m[ref.leaf].ranges| == FANOUT && 0 <= ref.slot < FANOUT
             && var r := m[ref.leaf].ranges[ref.slot];
             m' == m[ref.leaf := LeafNode(m[ref.leaf].ranges[ref.slot := Range(r.start, end)])]
    ensures var p := LastPath(t);
            && OnPath(t, p) && Sub(t, p).Leaf? && 0 <= LastOf(t).slot < |Sub(t, p).rs| && Flat(t) != []
            && var n := |Flat(t)| - 1; var r := Range(Flat(t)[n].start, end); var t' := Edited(t, p, LastOf(t).slot, r);
            && Stands(m', t', h) && m'.Keys == Addrs(t') && FilledRoot(t') && t'.addr == t.addr
            && FirstLeaf(t').addr == FirstLeaf(t).addr && LastOf(t') == LastOf(t)
            && Flat(t') == Flat(t)[n := r] && AscendingStarts(Flat(t'))
  {
    hide Distinct, Addrs, HasHeight, FillAround, Flat, Left, Right, LastLeaf, FirstLeaf, FilledRoot;
    LastRangeAt(m, t, h);
    var p, slot, n := LastPath(t), LastOf(t).slot, |Flat(t)| - 1;
    var r := Range(Flat(t)[n].start, end);
    var s := Leaf(Sub(t, p).addr, Sub(t, p).rs[slot := r]);
    OneLeaf(t, p, s);
    Graft(m, m', t, p, s);
    EditedFacts(m, m', t, h, p, slot, r);
    AscendingEdit(Flat(t), n, r);
  }

  lemma OneLeaf(t: Tree, p: seq<int>, s: Tree)
    requires OnPath(t, p) && Sub(t, p).Leaf? && s.Leaf? && s.addr == Sub(t, p).addr
    ensures Addrs(Sub(t, p)) == {s.addr} && Addrs(s) == {s.addr}
  {
  }

  // ----- merging, on the list -----

  /** The ranges from index `i` up to `hi` have become one that ends at `end`. */
  ghost predicate Swallowed(rs: seq<Range>, rs0: seq<Range>, i: int, hi: nat, end: nat)
  {
    0 <= i < hi <= |rs0| && rs == rs0[..i] + [Range(rs0[i].start, end)] + rs0[hi..]
  }

  lemma SwallowStep(rs: seq<Range>, rs0: seq<Range>, i: int, hi: nat, end: nat)
    requires Swallowed(rs, rs0, i, hi, end) && i > 0
    ensures i < |rs| && i < hi <= |rs0| && rs[i - 1] == rs0[i - 1] && rs[i].end == end
    ensures Swallowed(rs[..i - 1] + [Range(rs[i - 1].start, rs[i].end)] + rs[i + 1..], rs0, i - 1, hi, end)
  {
    assert rs[..i - 1] == rs0[..i - 1] && rs[i + 1..] == rs0[hi..];
  }

  lemma SwallowStart(rs0: seq<Range>, i: nat, end: nat)
    requires i < |rs0|
    ensures Swallowed(rs0[i := Range(rs0[i].start, end)], rs0, i, i + 1, end)
  {
  }

  /** When nothing more touches, what has been merged is the union. */
  lemma SwallowDone(rs: seq<Range>, rs0: seq<Range>, i: nat, hi: nat, start: nat, end: nat)
    requires Separated(rs0) && start < end && i < hi <= |rs0| && Swallowed(rs, rs0, i, hi, Max(end, rs0[hi - 1].end))
    requires Divides(rs0, hi, end) && start <= rs0[i].end
    requires rs0[i].start <= start || i == 0 || rs0[i - 1].end < start
    ensures i < |rs| && rs[i].start == rs0[i].start && (i > 0 ==> rs[i - 1].start < start)
    ensures rs[i := Range(Min(start, rs[i].start), rs[i].end)] == Union(rs0, start, end)
  {
    hide Separated, Divides, Union;
    SwallowTouches(rs0, i, hi, start, end);
    UnionIs(rs0, start, end, i, hi);
    SwallowJoined(rs, rs0, i, hi, start, end);
  }

  lemma SwallowTouches(rs0: seq<Range>, i: nat, hi: nat, start: nat, end: nat)
    requires Separated(rs0) && start < end && i < hi <= |rs0| && Divides(rs0, hi, end) && start <= rs0[i].end
    requires rs0[i].start <= start || i == 0 || rs0[i - 1].end < start
    ensures Touching(rs0, start, end, i, hi) && (i > 0 ==> rs0[i - 1].start < start)
  {
    assert i > 0 ==> rs0[i - 1].start <= rs0[i - 1].end < start;
    PrefixEnds(rs0, i, start);
    assert rs0[..hi][hi - 1].start <= end;
  }

  lemma SwallowJoined(rs: seq<Range>, rs0: seq<Range>, i: nat, hi: nat, start: nat, end: nat)
    requires i < hi <= |rs0| && Swallowed(rs, rs0, i, hi, Max(end, rs0[hi - 1].end))
    ensures i < |rs| && rs[i].start == rs0[i].start && (i > 0 ==> rs[i - 1] == rs0[i - 1])
    ensures rs[i := Range(Min(start, rs[i].start), rs[i].end)] == Collapse(rs0, i, hi, Joined(rs0, i, hi, start, end))
  {
  }

  /** A range that touches nothing is inserted. */
  lemma IsolatedList(rs: seq<Range>, hi: nat, start: nat, end: nat)
    requires Separated(rs) && AscendingStarts(rs) && start < end && Divides(rs, hi, end)
             && (hi > 0 ==> rs[hi - 1].end < start)
    ensures Insert(rs, hi, Range(start, end)) == Union(rs, start, end) && !Touches(rs, start, end)
    ensures AscendingStarts(Insert(rs, hi, Range(start, end)))
  {
    hide Union, Canonical;
    PrefixEnds(rs, hi, start);
    SuffixStarts(rs, hi, end) by {
      assert hi < |rs| ==> rs[hi..][0].start > end;
    }
    UnionIs(rs, start, end, hi, hi);
    NotTouching(rs, hi, start, end);
    AscendingInsert(rs, hi, Range(start, end));
  }

  lemma NotTouching(rs: seq<Range>, hi: nat, start: nat, end: nat)
    requires hi <= |rs| && EndsBefore(rs[..hi], start) && StartsAfter(rs[hi..], end)
    ensures !Touches(rs, start, end)
  {
    forall i | 0 <= i < |rs| ensures end < rs[i].start || rs[i].end < start {
      if i < hi {
        assert rs[..hi][i].end < start;
      } else {
        assert end < rs[hi..][i - hi].start;
      }
    }
  }

  lemma AscendingInsert(rs: seq<Range>, hi: nat, r: Range)
    requires AscendingStarts(rs) && hi <= |rs| && (hi > 0 ==> rs[hi - 1].start < r.start)
             && (hi < |rs| ==> r.start < rs[hi].start)
    ensures AscendingStarts(Insert(rs, hi, r))
  {
    var u := Insert(rs, hi, r);
    forall i, j | 0 <= i < j < |u| ensures u[i].start < u[j].start {
      if j == hi {
        assert rs[i].start <= rs[hi - 1].start;
      } else if i == hi {
        assert rs[hi].start <= rs[j - 1].start;
      }
    }
  }

  lemma TouchedList(rs: seq<Range>, i: int, start: nat, end: nat)
    requires 0 <= i < |rs| && Divides(rs, i + 1, end) && start <= rs[i].end
    ensures Touches(rs, start, end)
  {
    assert rs[..i + 1][i].start <= end;
  }

  /** When a range starts within or right after the last one, only the last one is touched. */
  lemma LastUnion(rs: seq<Range>, start: nat, end: nat)
    requires Separated(rs) && rs != [] && start < end && rs[|rs| - 1].start <= start <= rs[|rs| - 1].end
    ensures var n := |rs| - 1; Union(rs, start, end) == rs[n := Range(rs[n].start, Max(end, rs[n].end))]
    ensures Touches(rs, start, end)
  {
    hide Union;
    var n := |rs| - 1;
    assert n > 0 ==> rs[n - 1].end < start;
    PrefixEnds(rs, n, start);
    UnionIs(rs, start, end, n, n + 1);
  }

  lemma UnionNonEmpty(rs: seq<Range>, start: nat, end: nat)
    requires start < end
    ensures Union(rs, start, end) != []
  {
  }

  lemma FirstRangeAt(m: map<Addr, Node>, t: Tree, h: nat)
    requires Stands(m, t, h) && FilledRoot(t)
    ensures var a := FirstLeaf(t).addr;
            a in m && m[a].LeafNode? && |m[a].ranges| == FANOUT && Flat(t) != [] && m[a].ranges[0] == Flat(t)[0]
  {
    FirstLeafHolds(m, t, h);
  }

  lemma StandsSearchable(m: map<Addr, Node>, t: Tree, h: nat)
    requires Stands(m, t, h) && FilledRoot(t) && AscendingStarts(Flat(t))
    ensures Searchable(m, t, h) && h >= 1
  {
  }

  class BPlusRangeSet {
    var numRanges: nat
    var height: nat
    var root: Addr
    var last: Ref
    var nodes: map<Addr, Node>
    /** addresses at or above this have never been allocated */
    var brk: Addr
    /** the address of the leaf that is part of the structure itself */
    const first: Addr := 0
    ghost var tree: Tree

    /** The whole B+ tree invariant. */
    ghost predicate Valid()
      reads this
    {
      && Stands(nodes, tree, height) && nodes.Keys == Addrs(tree) && FilledRoot(tree) && tree.addr == root
      && FirstLeaf(tree).addr == first && last == LastOf(tree)
      && numRanges == |Flat(tree)| <= MAX_RANGES && height <= MAX_HEIGHT && AscendingStarts(Flat(tree))
      && Below(nodes, brk)
    }

    /** The ranges in order. */
    ghost function Contents(): seq<Range>
      reads this
    {
      Flat(tree)
    }

    constructor ()
      ensures Valid() && Contents() == [Range(0, 0)] && height == 1
    {
      var slots := seq(FANOUT, i => if i == 0 then Range(0, 0) else EMPTY_RANGE);
      numRanges, height, root, last := 1, 1, 0, Ref(0, 0);
      nodes, brk := map[0 := LeafNode(slots)], 1;
      tree := Leaf(0, [Range(0, 0)]);
    }

    /** The end of the last range, through the cached pointer. */
    method LastEnd() returns (end: nat)
      requires Valid()
      ensures Contents() != [] && end == Contents()[|Contents()| - 1].end
    {
      hide Stands, FilledRoot, LastOf, Addrs, Flat, FirstLeaf, LastPath, Sub, OnPath, Left;
      LastRangeAt(nodes, tree, height);
      end := nodes[last.leaf].ranges[last.slot].end;
    }

    /** The first range, which the leaf that is part of the structure holds. */
    method FirstRange() returns (r: Range)
      requires Valid()
      ensures Contents() != [] && r == Contents()[0]
    {
      hide Stands, FilledRoot, LastOf, Addrs, Flat, FirstLeaf;
      FirstRangeAt(nodes, tree, height);
      r := nodes[first].ranges[0];
    }

    /** Inserts a range that touches no other right after the one the path addresses. When memory for the new nodes is
        not available, nothing has changed. */
    method InsertRange(path: seq<Entry>, start: nat, end: nat, memory: bool) returns (status: Status)
      requires Valid() && |path| == height && Tracks(tree, path) && (path[height - 1].slot >= 0 || AllZero(Steps(path)))
      requires start < UINT64_MAX && numRanges < MAX_RANGES
      requires 0 <= Index(tree, path) + 1 <= |Contents()|
      requires AscendingStarts(Insert(Contents(), Index(tree, path) + 1, Range(start, end)))
      modifies this
      ensures Valid() && status != StateExhaustion && (status == NoMemory ==> unchanged(this))
      ensures status == NoMemory <==> !memory && Arity(Sub(old(tree), Steps(path))) == FANOUT
      ensures status == NoMemory ==> |Contents()| >= 16
      ensures status == Ok ==> Contents() == Insert(old(Contents()), old(Index(tree, path)) + 1, Range(start, end))
    {
      hide Stands, FilledRoot, LastOf, Tracks, FirstLeaf, AllZero, Left, Right, Sub, OnPath, Addrs, FullRun, Distinct;
      var full, needed := CountFull(nodes, height, path, tree);
      StandingHeight(nodes, tree, height);
      assert (full == height ==> height < MAX_HEIGHT) && needed <= MAX_HEIGHT;
      if needed > 0 && !memory {
        LeafWithin(tree, path);
        return NoMemory;
      }
      InsertedList(tree, path, Range(start, end));
      nodes, root, height, last, tree := InsertIn(nodes, root, height, last, path, Range(start, end), full, brk, tree);
      brk := brk + needed;
      numRanges := numRanges + 1;
      status := Ok;
    }

    static lemma LeafWithin(t: Tree, path: seq<Entry>)
      requires Tracks(t, path)
      ensures Arity(Sub(t, Steps(path))) <= |Flat(t)|
    {
      FlatSplit(t, Steps(path));
    }

    static lemma InsertedList(t: Tree, path: seq<Entry>, r: Range)
      requires Tracks(t, path)
      ensures 0 <= Index(t, path) + 1 <= |Flat(t)|
      ensures Left(t, Steps(path)) + Insert(Sub(t, Steps(path)).rs, path[|path| - 1].slot + 1, r)
              + Right(t, Steps(path))
              == Insert(Flat(t), Index(t, path) + 1, r)
    {
      FlatSplit(t, Steps(path));
      InsertInside(Left(t, Steps(path)), Sub(t, Steps(path)).rs, Right(t, Steps(path)), path[|path| - 1].slot + 1, r);
    }

    /** Removes the range that the path addresses, rebalancing the tree; the path returned addresses the range before
        it. */
    method DeleteRange(path0: seq<Entry>) returns (path: seq<Entry>)
      requires Valid() && |path0| == height && Tracks(tree, path0) && path0[height - 1].slot >= 0 && numRanges >= 2
      modifies this
      ensures Valid() && 0 <= old(Index(tree, path0)) < old(numRanges)
      ensures Contents() == Remove(old(Contents()), old(Index(tree, path0)))
      ensures |path| == height && Tracks(tree, path) && Index(tree, path) == old(Index(tree, path0)) - 1
      ensures brk == old(brk)
    {
      hide Stands, FilledRoot, LastOf, Tracks, FirstLeaf, Left, Right, Sub, OnPath, Addrs, Distinct, Index;
      ghost var i, rs := Index(tree, path0), Flat(tree);
      nodes, root, height, last, path, tree := DeleteIn(nodes, root, height, last, path0, tree);
      AscendingRemove(rs, i);
      numRanges := numRanges - 1;
      StandingHeight(nodes, tree, height);
    }

    /** Sets the end of the range that the path addresses. */
    method SetEnd(path: seq<Entry>, end: nat)
      requires Valid() && |path| == height && Tracks(tree, path) && path[height - 1].slot >= 0
      modifies this`nodes, this`tree
      ensures Valid() && 0 <= old(Index(tree, path)) < |old(Contents())|
      ensures Contents() == var i, rs := old(Index(tree, path)), old(Contents()); rs[i := Range(rs[i].start, end)]
      ensures tree == Edited(old(tree), Steps(path), path[height - 1].slot,
                             Range(old(Contents()[Index(tree, path)].start), end))
    {
      hide Stands, FilledRoot, LastOf, Tracks, FirstLeaf, Left, Right, Sub, OnPath, Addrs, Distinct, Index, Edited;
      SlotAt(nodes, tree, height, path);
      var leaf, slot := path[height - 1].node, path[height - 1].slot;
      var slots := nodes[leaf].ranges;
      ghost var r := Range(slots[slot].start, end);
      var m := nodes[leaf := LeafNode(slots[slot := Range(slots[slot].start, end)])];
      EndEdited(nodes, m, tree, height, path, r);
      ghost var i, rs := Index(tree, path), Flat(tree);
      AscendingEdit(rs, i, r);
      nodes, tree := m, Edited(tree, Steps(path), slot, r);
    }

    /** Lowers the start of the range that the path addresses, and the separator that refers to it. */
    method SetStart(path: seq<Entry>, start: nat)
      requires Valid() && |path| == height && Tracks(tree, path) && path[height - 1].slot >= 0
      requires var i := Index(tree, path);
               0 <= i < |Contents()| && start < Contents()[i].start && (i > 0 ==> Contents()[i - 1].start < start)
      modifies this`nodes, this`tree
      ensures Valid()
      ensures Contents() == var i, rs := old(Index(tree, path)), old(Contents()); rs[i := Range(start, rs[i].end)]
    {
      hide Stands, FilledRoot, LastOf, Tracks, FirstLeaf, Left, Right, Sub, OnPath, Addrs, Distinct, Index, Edited,
           First;
      SlotAt(nodes, tree, height, path);
      var leaf, slot := path[height - 1].node, path[height - 1].slot;
      var slots := nodes[leaf].ranges;
      ghost var r := Range(start, slots[slot].end);
      ghost var i, rs := Index(tree, path), Flat(tree);
      var m := nodes[leaf := LeafNode(slots[slot := Range(start, slots[slot].end)])];
      StartEdited(nodes, m, tree, height, path, r);
      if slot == 0 {
        m := UpdateSeparator(m, path, start, nodes, tree, Leaf(leaf, Sub(tree, Steps(path)).rs[slot := r]));
      }
      AfterEdit(nodes, m, tree, height, path, r);
      AscendingEdit(rs, i, r);
      nodes, tree := m, Edited(tree, Steps(path), slot, r);
    }

    /** Extends the last range in place, through the cached pointer to it. */
    method ExtendLast(end: nat)
      requires Valid()
      modifies this`nodes, this`tree
      ensures Valid() && old(Contents()) != []
      ensures Contents() == var rs := old(Contents()); var n := |rs| - 1; rs[n := Range(rs[n].start, end)]
    {
      hide Stands, FilledRoot, LastOf, FirstLeaf, Sub, OnPath, Addrs, Distinct, Edited, Flat, LastPath;
      LastRangeAt(nodes, tree, height);
      var slots := nodes[last.leaf].ranges;
      var m := nodes[last.leaf := LeafNode(slots[last.slot := Range(slots[last.slot].start, end)])];
      LastExtended(nodes, m, tree, height, end);
      ghost var n := |Flat(tree)| - 1;
      tree := Edited(tree, LastPath(tree), last.slot, Range(Flat(tree)[n].start, end));
      nodes := m;
    }

    /** The path to the range before the one that `path` addresses, or none. */
    method Predecessor(path: seq<Entry>) returns (found: bool, pred: seq<Entry>)
      requires Valid() && |path| == height && Tracks(tree, path) && path[height - 1].slot >= 0
      ensures found <==> Index(tree, path) > 0
      ensures found ==> |pred| == height && Tracks(tree, pred) && pred[height - 1].slot >= 0
                        && Index(tree, pred) == Index(tree, path) - 1
    {
      hide FilledRoot, LastOf, FirstLeaf, Addrs, Distinct, Flat, AscendingStarts, Below, AllZero, Left, Holds,
           HasHeight, Sub, OnPath;
      var leaf, slot := path[height - 1].node, path[height - 1].slot;
      LeafOf(nodes, tree, height, path);
      FirstLeafOnPath(tree, Steps(path));
      if slot != 0 {
        pred := path[height - 1 := Entry(leaf, slot - 1)];
        found := true;
        assert Steps(pred) == Steps(path);
      } else if leaf == first {
        ZeroLeft(tree, Steps(path));
        found, pred := false, path;
      } else {
        pred := PrevLeafIn(nodes, height, path, tree);
        found := true;
      }
    }

    /** Merges the range that the path addresses into its predecessor, if that ends at or after `start`. */
    method Absorb(path: seq<Entry>, start: nat) returns (merged: bool, path': seq<Entry>, predStart: nat)
      requires Valid() && |path| == height && Tracks(tree, path) && path[height - 1].slot >= 0
      requires 0 <= Index(tree, path) < |Contents()|
      modifies this
      ensures Valid() && |path'| == height && Tracks(tree, path')
      ensures var i, rs := old(Index(tree, path)), old(Contents());
              && (merged <==> i > 0 && start <= rs[i - 1].end)
              && (merged ==> Index(tree, path') == i - 1 && predStart == rs[i - 1].start
                             && Contents() == rs[..i - 1] + [Range(rs[i - 1].start, rs[i].end)] + rs[i + 1..])
              && (!merged ==> unchanged(this) && path' == path)
    {
      hide Stands, FilledRoot, LastOf, FirstLeaf, Sub, OnPath, Addrs, Distinct, Edited, Flat, Tracks, Index, Remove,
           AscendingStarts, Below;
      ghost var i, rs, t0 := Index(tree, path), Contents(), tree;
      SlotAt(nodes, tree, height, path);
      var r := nodes[path[height - 1].node].ranges[path[height - 1].slot];
      var found, pred := Predecessor(path);
      if !found {
        return false, path, 0;
      }
      SlotAt(nodes, tree, height, pred);
      var p := nodes[pred[height - 1].node].ranges[pred[height - 1].slot];
      if p.end < start {
        return false, path, 0;
      }
      predStart := p.start;
      SetEnd(pred, r.end);
      StillTracks(t0, pred, path, Range(rs[i - 1].start, r.end), tree);
      path' := DeleteRange(path);
      merged := true;
      Absorbed(rs, i);
    }

    static lemma Absorbed(rs: seq<Range>, i: int)
      requires 0 < i < |rs|
      ensures Remove(rs[i - 1 := Range(rs[i - 1].start, rs[i].end)], i)
              == rs[..i - 1] + [Range(rs[i - 1].start, rs[i].end)] + rs[i + 1..]
    {
    }

    static lemma StillTracks(t: Tree, pred: seq<Entry>, path: seq<Entry>, r: Range, t': Tree)
      requires Tracks(t, pred) && pred[|pred| - 1].slot >= 0 && Tracks(t, path)
      requires t' == Edited(t, Steps(pred), pred[|pred| - 1].slot, r)
      ensures Tracks(t', path) && Index(t', path) == Index(t, path)
    {
      var leaf := Sub(t, Steps(pred));
      SameShapeTracks(t, Steps(pred), Leaf(leaf.addr, leaf.rs[pred[|pred| - 1].slot := r]), path);
    }

    /** Merges [start, end) with the ranges it touches, the last of which the path addresses. */
    method MergeInto(path: seq<Entry>, start: nat, end: nat)
      requires Valid() && Separated(Contents()) && start < end
      requires |path| == height && Tracks(tree, path) && path[height - 1].slot >= 0
      requires Divides(Contents(), Index(tree, path) + 1, end)
      requires 0 <= Index(tree, path) < |Contents()| && start <= Contents()[Index(tree, path)].end
      modifies this
      ensures Valid() && Contents() == Union(old(Contents()), start, end)
    {
      hide Stands, FilledRoot, LastOf, FirstLeaf, Sub, OnPath, Addrs, Distinct, Edited, Flat, Tracks, Index, Divides,
           Separated, Union, AscendingStarts, Below, Swallowed, BPlusRangeSet.Valid;
      ghost var rs0, i := Contents(), Index(tree, path);
      ghost var hi := i + 1;
      var p := path;
      SlotHere(p);
      var r := nodes[p[height - 1].node].ranges[p[height - 1].slot];
      ghost var top := Max(end, r.end);
      SwallowStart(rs0, i, top);
      if r.end < end {
        SetEnd(p, end);
        StillTracks(old(tree), p, p, Range(r.start, end), tree);
      } else {
        assert rs0[i := Range(r.start, top)] == rs0;
      }
      while true
        invariant Valid() && p != [] && |p| == height && Tracks(tree, p) && p[height - 1].slot >= 0
        invariant Index(tree, p) == i && Swallowed(Contents(), rs0, i, hi, top) && i < |Contents()|
                  && 0 <= i < hi <= |rs0|
        invariant start <= rs0[i].end
        decreases i
      {
        SlotHere(p);
        SwallowEdge(Contents(), rs0, i, hi, top);
        if nodes[p[height - 1].node].ranges[p[height - 1].slot].start <= start {
          SwallowDone(Contents(), rs0, i, hi, start, end);
          KeepRange(Contents(), i, start);
          return;
        }
        ghost var rs := Contents();
        var merged, p', predStart := Absorb(p, start);
        if !merged {
          SwallowDone(rs, rs0, i, hi, start, end);
          SetStart(p', start);
          return;
        }
        SwallowStep(rs, rs0, i, hi, top);
        i := i - 1;
        SwallowEdge(Contents(), rs0, i, hi, top);
        if predStart <= start {
          SwallowDone(Contents(), rs0, i, hi, start, end);
          KeepRange(Contents(), i, start);
          return;
        }
        p := Normal(p');
      }
    }

    /** What the slot that a path addresses holds. */
    lemma SlotHere(path: seq<Entry>)
      requires Valid() && |path| == height && Tracks(tree, path) && path[height - 1].slot >= 0
      ensures height >= 1
      ensures var leaf, slot := path[height - 1].node, path[height - 1].slot;
              && leaf in nodes && nodes[leaf].LeafNode? && |nodes[leaf].ranges| == FANOUT && slot < FANOUT
              && OnPath(tree, Steps(path)) && Sub(tree, Steps(path)).Leaf? && slot < |Sub(tree, Steps(path)).rs|
              && 0 <= Index(tree, path) < |Contents()| && nodes[leaf].ranges[slot] == Contents()[Index(tree, path)]
    {
      hide Stands, FilledRoot, LastOf, FirstLeaf, Sub, OnPath, Addrs, Distinct, Flat, Index;
      SlotAt(nodes, tree, height, path);
    }

    /** Turns slot -1 into the last range of the preceding leaf. */
    method Normal(path: seq<Entry>) returns (p: seq<Entry>)
      requires Valid() && |path| == height && Tracks(tree, path) && Index(tree, path) >= 0
      ensures p != [] && |p| == height && Tracks(tree, p) && p[height - 1].slot >= 0
              && Index(tree, p) == Index(tree, path)
    {
      hide FilledRoot, LastOf, FirstLeaf, Sub, OnPath, Addrs, Distinct, Flat, AscendingStarts, Below, AllZero, Left;
      p := path;
      if path[height - 1].slot < 0 {
        if AllZero(Steps(path)) {
          AtStart(tree, path);
        }
        p := PrevLeafIn(nodes, height, path, tree);
      }
    }

    static lemma AtStart(t: Tree, path: seq<Entry>)
      requires Tracks(t, path) && AllZero(Steps(path)) && path[|path| - 1].slot < 0
      ensures Index(t, path) == -1
    {
      ZeroLeft(t, Steps(path));
    }

    static lemma KeepRange(rs: seq<Range>, i: nat, start: nat)
      requires i < |rs| && rs[i].start <= start
      ensures rs[i := Range(Min(start, rs[i].start), rs[i].end)] == rs
    {
    }

    static lemma SwallowEdge(rs: seq<Range>, rs0: seq<Range>, i: int, hi: nat, end: nat)
      requires Swallowed(rs, rs0, i, hi, end)
      ensures 0 <= i < hi <= |rs0| && i < |rs| && rs[i].start == rs0[i].start && (i > 0 ==> rs[i - 1] == rs0[i - 1])
    {
    }

    /** Whether the range found by the search for `end` leaves [start, end) alone. */
    method Isolated(path: seq<Entry>, start: nat, end: nat) returns (r: bool)
      requires Valid() && Separated(Contents()) && start < end < UINT64_MAX
      requires |path| == height && Tracks(tree, path) && Divides(Contents(), Index(tree, path) + 1, end)
      requires path[height - 1].slot < 0 ==> AllZero(Steps(path))
      ensures r <==> !Touches(Contents(), start, end)
      ensures r ==> && 0 <= Index(tree, path) + 1 <= |Contents()|
                    && Insert(Contents(), Index(tree, path) + 1, Range(start, end)) == Union(Contents(), start, end)
                    && AscendingStarts(Insert(Contents(), Index(tree, path) + 1, Range(start, end)))
      ensures !r ==> && path[height - 1].slot >= 0 && 0 <= Index(tree, path) < |Contents()|
                     && start <= Contents()[Index(tree, path)].end
    {
      hide Stands, FilledRoot, LastOf, FirstLeaf, Sub, OnPath, Addrs, Distinct, Flat, Index, Divides, Separated, Union,
           AscendingStarts, Below, AllZero, Touches, Insert, Left;
      if path[height - 1].slot < 0 {
        AtStart(tree, path);
        IsolatedList(Contents(), 0, start, end);
        return true;
      }
      SlotAt(nodes, tree, height, path);
      if nodes[path[height - 1].node].ranges[path[height - 1].slot].end < start {
        IsolatedList(Contents(), Index(tree, path) + 1, start, end);
        return true;
      }
      TouchedList(Contents(), Index(tree, path), start, end);
      return false;
    }

    /** Adds [start, end). The answer is what the flat list gives; a range that touches nothing is refused when the cap
        is reached, and then, as when memory runs out, nothing has changed. */
    method Add(start: nat, end: nat, maxCommitted: nat, memory: bool) returns (status: Status)
      requires Valid() && Separated(Contents()) && start <= end < UINT64_MAX && Contents() != []
      requires Contents()[0].end <= maxCommitted
      modifies this
      ensures Valid() && Contents() != [] && height <= MAX_HEIGHT && numRanges <= MAX_RANGES
      ensures Separated(Contents()) <==>
              status != Ok || start == end || old(Contents()[0].start) <= end || old(Canonical(Contents()))
      ensures status == Ok ==> Contents() == Union(old(Contents()), start, end)
      ensures status != Ok ==> unchanged(this)
      ensures status == StateExhaustion <==>
              && start < end && !Touches(old(Contents()), start, end) && |old(Contents())| >= 63
              && (|old(Contents())| >= 0x40_0000 || 1024 * |old(Contents())| > maxCommitted - old(Contents())[0].end)
      ensures status == NoMemory ==>
                !memory && start < end && !Touches(old(Contents()), start, end) && |old(Contents())| >= 16
    {
      hide Stands, FilledRoot, LastOf, FirstLeaf, Sub, OnPath, Addrs, Distinct, Edited, Flat, Tracks, Index, Divides,
           Separated, Canonical, Union, AscendingStarts, Below, AllZero, Touches;
      ghost var rs := Contents();
      UnionSeparated(rs, start, end);
      if start == end {
        UnionOfNothing(rs, start);
        return Ok;
      }
      UnionNonEmpty(rs, start, end);
      LastRangeAt(nodes, tree, height);
      var r := nodes[last.leaf].ranges[last.slot];
      if r.start <= start <= r.end {
        LastUnion(rs, start, end);
        if r.end < end {
          ExtendLast(end);
        }
        assert Contents() == Union(rs, start, end);
        return Ok;
      }
      status := AddBySearch(start, end, maxCommitted, memory);
    }

    /** The general case of `Add`: a search from the root for the last range that starts at or below `end`. */
    method AddBySearch(start: nat, end: nat, maxCommitted: nat, memory: bool) returns (status: Status)
      requires Valid() && Separated(Contents()) && start < end < UINT64_MAX && Contents() != []
      requires Contents()[0].end <= maxCommitted
      modifies this
      ensures Valid()
      ensures status == Ok ==> Contents() == Union(old(Contents()), start, end)
      ensures status != Ok ==> unchanged(this)
      ensures status == StateExhaustion <==>
              && !Touches(old(Contents()), start, end) && |old(Contents())| >= 63
              && (|old(Contents())| >= 0x40_0000 || 1024 * |old(Contents())| > maxCommitted - old(Contents())[0].end)
      ensures status == NoMemory ==> !memory && !Touches(old(Contents()), start, end) && |old(Contents())| >= 16
    {
      hide Stands, FilledRoot, LastOf, FirstLeaf, Sub, OnPath, Addrs, Distinct, Edited, Flat, Tracks, Index, Divides,
           Separated, Canonical, Union, AscendingStarts, Below, AllZero, Touches;
      StandsSearchable(nodes, tree, height);
      var path := DescendIn(nodes, root, height, end, tree);
      var isolated := Isolated(path, start, end);
      if isolated {
        FirstRangeAt(nodes, tree, height);
        var cap := CalcMaxRanges(nodes[first].ranges[0].end, maxCommitted);
        assert numRanges >= cap <==>
            numRanges >= 63 && (numRanges >= 0x40_0000 || 1024 * numRanges > maxCommitted - Contents()[0].end);
        if numRanges >= cap {
          return StateExhaustion;
        }
        status := InsertRange(path, start, end, memory);
        return;
      }
      MergeInto(path, start, end);
      status := Ok;
    }
  }
}
