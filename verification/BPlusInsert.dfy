/** Insertion into the B+ tree: the leaf takes the range, and full nodes are split from the bottom up. */
module BPlusInserts {
  import opened Basics
  import opened Ranges
  import opened BPlusNodes
  import opened BPlusTrees
  import opened BPlusOrders
  import opened BPlusPaths

  /** Memory holds exactly one tree, which lists `target`. */
  ghost predicate Built(m: map<Addr, Node>, t: Tree, h: nat, target: seq<Range>)
  {
    Stands(m, t, h) && m.Keys == Addrs(t) && FilledRoot(t) && Flat(t) == target
  }

  /** Memory holds a tree and, beside it, the high half of the node at `q`, which its parent has yet to take in; with
      it, the tree lists `target`. */
  ghost predicate Pending(m: map<Addr, Node>, t: Tree, high: Tree, q: seq<int>, h: nat, target: seq<Range>)
  {
    && Stands(m, t, h) && OnPath(t, q) && |q| < h && Stands(m, high, h - |q|)
    && Addrs(t) !! Addrs(high) && m.Keys == Addrs(t) + Addrs(high)
    && FillAround(t, q, 2) && Filled(Sub(t, q)) && Filled(high)
    && Left(t, q) + (Flat(Sub(t, q)) + Flat(high)) + Right(t, q) == target
    && First(high) < UINT64_MAX
  }

  /** The last range of what is pending is in the high half when the path runs along the right edge. */
  ghost function PendingLast(t: Tree, high: Tree, q: seq<int>): Ref
    requires OnPath(t, q)
  {
    LastOf(if Rightmost(t, q) then high else t)
  }

  // ----- the leaf -----

  method SplitLeafInsert(m: map<Addr, Node>, leaf: Addr, high: Addr, pos: nat, r: Range, ghost rs: seq<Range>)
    returns (m': map<Addr, Node>, sep: nat, ghost lo: seq<Range>, ghost hi: seq<Range>)
    requires leaf in m && m[leaf].LeafNode? && LeafHolds(m[leaf].ranges, rs) && |rs| == FANOUT
    requires high !in m && pos <= FANOUT && r.start < UINT64_MAX
    ensures Adds(m, m', high) && AgreeOff(m, m', {leaf})
    ensures m'[leaf].LeafNode? && LeafHolds(m'[leaf].ranges, lo)
    ensures m'[high].LeafNode? && LeafHolds(m'[high].ranges, hi)
    ensures lo + hi == Insert(rs, pos, r) && sep == hi[0].start
    ensures if pos > MIN_ENTRIES then |lo| == MIN_ENTRIES && |hi| == MIN_ENTRIES + 1
            else |lo| == MIN_ENTRIES + 1 && |hi| == MIN_ENTRIES
  {
    var low, top := SplitLeaf(m[leaf].ranges, rs);
    sep := top[0].start;
    lo, hi := rs[..MIN_ENTRIES], rs[MIN_ENTRIES..];
    if pos > MIN_ENTRIES {
      top := InsertRangeAt(top, pos - MIN_ENTRIES, r, hi);
      hi := Insert(hi, pos - MIN_ENTRIES, r);
    } else {
      low := InsertRangeAt(low, pos, r, lo);
      lo := Insert(lo, pos, r);
    }
    m' := m[leaf := LeafNode(low)][high := LeafNode(top)];
  }

  /** A subtree replaced by a filled one. */
  lemma Rebuilt(m: map<Addr, Node>, m': map<Addr, Node>, t: Tree, h: nat, p: seq<int>, s: Tree)
    requires Stands(m, t, h) && OnPath(t, p) && |p| < h && FillAround(t, p, 2) && Stands(m', s, h - |p|)
    requires s.addr == Sub(t, p).addr && (First(s) == First(Sub(t, p)) || AllZero(p))
    requires Agree(m, m', Addrs(t) - Addrs(Sub(t, p))) && Addrs(s) !! (Addrs(t) - Addrs(Sub(t, p)))
    requires m'.Keys == (Addrs(t) - Addrs(Sub(t, p))) + Addrs(s)
    requires if p == [] then FilledRoot(s) else Filled(s)
    ensures Built(m', Plug(t, p, s), h, Left(t, p) + Flat(s) + Right(t, p))
    ensures Plug(t, p, s).addr == t.addr
  {
    Regraft(m, m', t, h, p, s, 2);
    FilledRootJoins(Plug(t, p, s), p);
  }

  lemma LeafTaken(m: map<Addr, Node>, m': map<Addr, Node>, t: Tree, h: nat, p: seq<int>, pos: nat, r: Range, s: Tree)
    requires Stands(m, t, h) && OnPath(t, p) && |p| + 1 == h && m.Keys == Addrs(t) && FilledRoot(t)
    requires Sub(t, p).Leaf? && pos <= |Sub(t, p).rs| < FANOUT && (pos > 0 || AllZero(p))
    requires s == Leaf(Sub(t, p).addr, Insert(Sub(t, p).rs, pos, r))
    requires Holds(m', s) && m'.Keys == m.Keys && AgreeOff(m, m', {s.addr})
    ensures Built(m', Plug(t, p, s), h, Left(t, p) + s.rs + Right(t, p))
    ensures Plug(t, p, s).addr == t.addr
  {
    FilledRootSplits(t, p);
    SubAddrs(t, p);
    Rebuilt(m, m', t, h, p, s);
  }

  lemma InsertInside(a: seq<Range>, b: seq<Range>, c: seq<Range>, pos: nat, r: Range)
    requires pos <= |b|
    ensures a + Insert(b, pos, r) + c == Insert(a + b + c, |a| + pos, r)
  {
  }

  /** A node that was divided into a low part, at the same address, and a high part. */
  lemma Parted(m: map<Addr, Node>, m': map<Addr, Node>, t: Tree, h: nat, p: seq<int>, low: Tree, high: Tree)
    requires Stands(m, t, h) && OnPath(t, p) && |p| < h && FillAround(t, p, 2)
    requires Stands(m', low, h - |p|) && Stands(m', high, h - |p|) && Filled(low) && Filled(high)
    requires low.addr == Sub(t, p).addr && (First(low) == First(Sub(t, p)) || AllZero(p)) && First(high) < UINT64_MAX
    requires Agree(m, m', Addrs(t) - Addrs(Sub(t, p)))
    requires Addrs(low) !! Addrs(high) && (Addrs(low) + Addrs(high)) !! (Addrs(t) - Addrs(Sub(t, p)))
    requires m'.Keys == (Addrs(t) - Addrs(Sub(t, p))) + Addrs(low) + Addrs(high)
    ensures Pending(m', Plug(t, p, low), high, p, h, Left(t, p) + (Flat(low) + Flat(high)) + Right(t, p))
    ensures Plug(t, p, low).addr == t.addr
  {
    Regraft(m, m', t, h, p, low, 2);
  }

  lemma LeafParted(m: map<Addr, Node>, m': map<Addr, Node>, t: Tree, h: nat, p: seq<int>, pos: nat, r: Range,
                   low: Tree, high: Tree)
    requires Stands(m, t, h) && OnPath(t, p) && |p| + 1 == h && m.Keys == Addrs(t) && FilledRoot(t)
    requires Sub(t, p).Leaf? && pos <= |Sub(t, p).rs| && (pos > 0 || AllZero(p))
    requires low.Leaf? && high.Leaf? && low.addr == Sub(t, p).addr && high.addr !in m
    requires low.rs + high.rs == Insert(Sub(t, p).rs, pos, r) && Filled(low) && Filled(high)
    requires Holds(m', low) && Holds(m', high)
    requires Adds(m, m', high.addr) && AgreeOff(m, m', {low.addr})
    ensures Pending(m', Plug(t, p, low), high, p, h, Left(t, p) + Insert(Sub(t, p).rs, pos, r) + Right(t, p))
    ensures Plug(t, p, low).addr == t.addr
  {
    var leaf := Sub(t, p);
    FilledRootSplits(t, p);
    SubAddrs(t, p);
    assert First(low) == First(leaf) || AllZero(p) by {
      assert low.rs[0] == (low.rs + high.rs)[0];
    }
    assert Addrs(high) == {high.addr} && Addrs(low) == Addrs(leaf) == {low.addr};
    Parted(m, m', t, h, p, low, high);
  }

  // ----- the parent -----

  method InsertChild(m: map<Addr, Node>, parent: Addr, slot: nat, sep: nat, child: Addr, ghost ts: seq<Tree>,
                     ghost high: Tree)
    returns (m': map<Addr, Node>)
    requires parent in m && m[parent].InnerNode?
    requires InnerHolds(m[parent].keys, m[parent].children, Mins(ts), KidAddrs(ts))
    requires slot < |ts| < FANOUT && sep == First(high) < UINT64_MAX && child == high.addr
    ensures m'.Keys == m.Keys && AgreeOff(m, m', {parent}) && m'[parent].InnerNode?
    ensures var us := Insert(ts, slot + 1, high);
            InnerHolds(m'[parent].keys, m'[parent].children, Mins(us), KidAddrs(us))
  {
    var ks, cs := InsertEntryAt(m[parent].keys, m[parent].children, slot + 1, sep, child, Mins(ts), KidAddrs(ts));
    MinsInsert(ts, slot + 1, high);
    m' := m[parent := InnerNode(ks, cs)];
  }

  method SplitInnerInsert(m: map<Addr, Node>, parent: Addr, node: Addr, slot: nat, key: nat, child: Addr,
                          ghost ts: seq<Tree>, ghost high: Tree)
    returns (m': map<Addr, Node>, sep: nat, ghost lo: seq<Tree>, ghost up: seq<Tree>)
    requires parent in m && m[parent].InnerNode? && node !in m
    requires InnerHolds(m[parent].keys, m[parent].children, Mins(ts), KidAddrs(ts))
    requires slot < |ts| == FANOUT && key == First(high) < UINT64_MAX && child == high.addr
    ensures Adds(m, m', node) && AgreeOff(m, m', {parent})
    ensures HoldsKids(m', parent, lo) && HoldsKids(m', node, up)
    ensures lo + up == Insert(ts, slot + 1, high)
    ensures MIN_ENTRIES <= |lo| <= MIN_ENTRIES + 1 && MIN_ENTRIES <= |up| <= MIN_ENTRIES + 1
    ensures lo[0] == ts[0] && sep == First(up[0]) < UINT64_MAX
  {
    var lowKeys, highKeys, highChildren, s :=
      SplitInner(m[parent].keys, m[parent].children, Mins(ts), KidAddrs(ts));
    sep := s;
    var lowChildren := m[parent].children;
    lo, up := ts[..MIN_ENTRIES], ts[MIN_ENTRIES..];
    MinsSlices(ts, MIN_ENTRIES);
    assert up[0] == ts[MIN_ENTRIES] && Mins(ts)[MIN_ENTRIES] == First(ts[MIN_ENTRIES]);
    if slot >= MIN_ENTRIES {
      var at := slot - MIN_ENTRIES + 1;
      highKeys, highChildren := InsertEntryAt(highKeys, highChildren, at, key, child, Mins(up), KidAddrs(up));
      MinsInsert(up, at, high);
      up := Insert(up, at, high);
    } else {
      lowKeys, lowChildren := InsertEntryAt(lowKeys, lowChildren, slot + 1, key, child, Mins(lo), KidAddrs(lo));
      MinsInsert(lo, slot + 1, high);
      lo := Insert(lo, slot + 1, high);
    }
    assert lo + up == Insert(ts, slot + 1, high);
    m' := m[parent := InnerNode(lowKeys, lowChildren)][node := InnerNode(highKeys, highChildren)];
  }

  /** The parent with the high half taken in, before it is known to fit. */
  ghost function Widened(t: Tree, u: seq<int>, i: nat, high: Tree): Tree
    requires OnPath(t, u) && Sub(t, u).Fork? && i < |Sub(t, u).kids|
  {
    Fork(Sub(t, u).addr, Insert(Sub(t, u).kids, i + 1, high))
  }

  lemma WidenedShape(f: Tree, i: nat, high: Tree, h: nat)
    requires f.Fork? && i < |f.kids| && HasHeight(f, h) && HasHeight(high, h - 1) && Filled(high)
    requires forall j :: 0 <= j < |f.kids| ==> Filled(f.kids[j])
    ensures var f' := Fork(f.addr, Insert(f.kids, i + 1, high));
            && HasHeight(f', h) && KidsFilled(f') && First(f') == First(f)
            && FirstLeaf(f').addr == FirstLeaf(f).addr
            && LastLeaf(f') == if i + 1 == |f.kids| then LastLeaf(high) else LastLeaf(f)
  {
    var ts := Insert(f.kids, i + 1, high);
    assert forall j :: 0 <= j < |ts| ==>
        ts[j] == if j <= i then f.kids[j] else if j == i + 1 then high else f.kids[j - 1];
  }

  lemma WidenedHolds(m: map<Addr, Node>, f: Tree, i: nat, high: Tree)
    requires f.Fork? && i < |f.kids| && Holds(m, f) && Holds(m, high)
    ensures var ts := Insert(f.kids, i + 1, high); forall j :: 0 <= j < |ts| ==> Holds(m, ts[j])
  {
    var ts := Insert(f.kids, i + 1, high);
    assert forall j :: 0 <= j < |ts| ==>
        ts[j] == if j <= i then f.kids[j] else if j == i + 1 then high else f.kids[j - 1];
  }

  /** The facts about the parent that both ways of taking the high half in start from. */
  lemma ParentFacts(m: map<Addr, Node>, t: Tree, high: Tree, u: seq<int>, i: nat, h: nat, target: seq<Range>)
    requires OnPath(t, u) && Sub(t, u).Fork? && i < |Sub(t, u).kids| && Pending(m, t, high, u + [i], h, target)
    ensures var f, f' := Sub(t, u), Widened(t, u, i, high);
            && |u| + 1 < h && FillAround(t, u, 2) && Holds(m, f) && Distinct(f) && Addrs(f) <= Addrs(t)
            && HasHeight(f, h - |u|) && KidsFilled(f) && (if u == [] then 2 else MIN_ENTRIES) <= |f.kids| <= FANOUT
            && Distinct(f') && Addrs(f') == Addrs(f) + Addrs(high)
            && Left(t, u) + Flat(f') + Right(t, u) == target
  {
    var f := Sub(t, u);
    Deeper(t, u, i);
    FillAroundDeeper(t, u, i, 2);
    SubHolds(m, t, u);
    SubAddrs(t, u);
    SubHeight(t, u, h);
    InsertDistinct(f, i + 1, high);
    ParentFlat(t, high, u, i);
  }

  lemma ParentFlat(t: Tree, high: Tree, u: seq<int>, i: nat)
    requires OnPath(t, u) && Sub(t, u).Fork? && i < |Sub(t, u).kids| && OnPath(t, u + [i])
    ensures Left(t, u) + FlatAll(Insert(Sub(t, u).kids, i + 1, high)) + Right(t, u)
            == Left(t, u + [i]) + (Flat(Sub(t, u + [i])) + Flat(high)) + Right(t, u + [i])
  {
    var ts := Sub(t, u).kids;
    Deeper(t, u, i);
    FlatAllInsert(ts, i + 1, high);
    assert ts[..i + 1] == ts[..i] + [ts[i]];
    FlatAllConcat(ts[..i], [ts[i]]);
    FlatAllOne(ts[i]);
    Regroup5(Left(t, u), FlatAll(ts[..i]), Flat(ts[i]), Flat(high), FlatAll(ts[i + 1..]), Right(t, u));
  }

  lemma Regroup5<T>(a: seq<T>, b: seq<T>, c: seq<T>, d: seq<T>, e: seq<T>, f: seq<T>)
    ensures a + (b + c + d + e) + f == a + b + (c + d) + (e + f)
  {
  }

  lemma ParentTakes(m: map<Addr, Node>, m': map<Addr, Node>, t: Tree, high: Tree, u: seq<int>, i: nat, h: nat,
                    target: seq<Range>)
    requires OnPath(t, u) && Sub(t, u).Fork? && i < |Sub(t, u).kids| < FANOUT
    requires Pending(m, t, high, u + [i], h, target)
    requires m'.Keys == m.Keys && AgreeOff(m, m', {Sub(t, u).addr}) && Sub(t, u).addr in m'
    requires var us, n := Insert(Sub(t, u).kids, i + 1, high), m'[Sub(t, u).addr];
             n.InnerNode? && InnerHolds(n.keys, n.children, Mins(us), KidAddrs(us))
    ensures var t' := Plug(t, u, Widened(t, u, i, high));
            Built(m', t', h, target) && t'.addr == t.addr
  {
    hide Holds, Distinct, Addrs, AddrsAll, HasHeight, FillAround, Flat, FlatAll, First, Left, Right, Sub, Plug, OnPath;
    ParentFacts(m, t, high, u, i, h, target);
    var f, f' := Sub(t, u), Widened(t, u, i, high);
    Deeper(t, u, i);
    WidenedShape(f, i, high, h - |u|);
    WidenedHolds(m, f, i, high);
    OwnAddr(f');
    OwnAddr(f);
    HoldsFork(m, m', f');
    Rebuilt(m, m', t, h, u, f');
  }

  lemma OwnAddr(f: Tree)
    requires f.Fork? && Distinct(f)
    ensures f.addr !in AddrsAll(f.kids) && Addrs(f) == {f.addr} + AddrsAll(f.kids)
  {
    assert forall j :: 0 <= j < |f.kids| ==> f.addr !in Addrs(f.kids[j]);
  }

  lemma PartedShape(f: Tree, i: nat, high: Tree, h: nat, a: Tree, b: Tree)
    requires f.Fork? && i < |f.kids| && HasHeight(f, h) && HasHeight(high, h - 1) && Filled(high) && KidsFilled(f)
    requires a.Fork? && b.Fork? && a.addr == f.addr && a.kids + b.kids == Insert(f.kids, i + 1, high)
    requires MIN_ENTRIES <= |a.kids| <= FANOUT && MIN_ENTRIES <= |b.kids| <= FANOUT
    ensures Fork(f.addr, Insert(f.kids, i + 1, high)) == Join(a, b)
    ensures HasHeight(a, h) && HasHeight(b, h) && Filled(a) && Filled(b) && First(a) == First(f)
    ensures Flat(Join(a, b)) == Flat(a) + Flat(b)
  {
    hide HasHeight, First, Flat;
    WidenedShape(f, i, high, h);
    JoinHeight(a, b, h);
    JoinKidsFilled(a, b);
    JoinFirst(a, b);
    JoinFlat(a, b);
  }

  lemma ParentParted(m: map<Addr, Node>, m': map<Addr, Node>, t: Tree, high: Tree, u: seq<int>, i: nat, h: nat,
                     target: seq<Range>, a: Tree, b: Tree)
    requires OnPath(t, u) && Sub(t, u).Fork? && i < |Sub(t, u).kids|
    requires Pending(m, t, high, u + [i], h, target)
    requires a.Fork? && b.Fork? && a.addr == Sub(t, u).addr && b.addr !in m
    requires a.kids + b.kids == Insert(Sub(t, u).kids, i + 1, high)
    requires MIN_ENTRIES <= |a.kids| <= FANOUT && MIN_ENTRIES <= |b.kids| <= FANOUT && First(b) < UINT64_MAX
    requires Adds(m, m', b.addr) && AgreeOff(m, m', {a.addr})
    requires HoldsKids(m', a.addr, a.kids) && HoldsKids(m', b.addr, b.kids)
    ensures Pending(m', Plug(t, u, a), b, u, h, target) && Plug(t, u, a).addr == t.addr
  {
    hide Holds, Distinct, Addrs, AddrsAll, HasHeight, FillAround, Flat, FlatAll, First, Left, Right, Sub, Plug, OnPath,
         HoldsKids, Filled;
    ParentFacts(m, t, high, u, i, h, target);
    Deeper(t, u, i);
    var f := Sub(t, u);
    PartedShape(f, i, high, h - |u|, a, b);
    WidenedHolds(m, f, i, high);
    PartedHolds(m, m', Widened(t, u, i, high), a, b);
    OwnAddr(f);
    Parted(m, m', t, h, u, a, b);
  }

  lemma PartedHolds(m: map<Addr, Node>, m': map<Addr, Node>, f: Tree, a: Tree, b: Tree)
    requires f.Fork? && a.Fork? && b.Fork? && f == Join(a, b) && Distinct(f) && b.addr !in Addrs(f)
    requires Addrs(f) <= m.Keys
    requires forall j :: 0 <= j < |f.kids| ==> Holds(m, f.kids[j])
    requires b.addr !in m && Adds(m, m', b.addr) && AgreeOff(m, m', {a.addr})
    requires HoldsKids(m', a.addr, a.kids) && HoldsKids(m', b.addr, b.kids)
    ensures Holds(m', a) && Holds(m', b) && Distinct(a) && Distinct(b) && Addrs(a) !! Addrs(b)
    ensures Addrs(a) + Addrs(b) == Addrs(f) + {b.addr}
  {
    hide Holds, Distinct, Addrs, AddrsAll, HoldsKids;
    PartedAddrs(a, b);
    OwnAddr(f);
    assert Agree(m, m', AddrsAll(a.kids)) && Agree(m, m', AddrsAll(b.kids));
    HoldsParts(m, a.kids, b.kids);
    HoldsFork(m, m', a);
    HoldsFork(m, m', b);
  }

  lemma PartedAddrs(a: Tree, b: Tree)
    requires a.Fork? && b.Fork? && Distinct(Join(a, b)) && b.addr !in Addrs(Join(a, b))
    ensures Distinct(a) && Distinct(b) && Addrs(a) !! Addrs(b)
    ensures Addrs(a) + Addrs(b) == Addrs(Join(a, b)) + {b.addr}
    ensures AddrsAll(a.kids) + AddrsAll(b.kids) == AddrsAll(Join(a, b).kids)
  {
    hide Distinct, Addrs, AddrsAll;
    JoinDistinct(a, b);
    AddrsAllConcat(a.kids, b.kids);
    OwnAddr(Join(a, b));
    OwnAddr(a);
    OwnAddr(b);
  }

  // ----- from the bottom up -----

  /** The `n` lowest nodes of the path are full and the one above them, if any, is not. */
  ghost predicate FullRun(t: Tree, p: seq<int>, n: nat)
    requires OnPath(t, p)
  {
    && n <= |p| + 1
    && (forall k :: |p| + 1 - n <= k <= |p| ==> OnPath(t, p[..k]) && Arity(Sub(t, p[..k])) == FANOUT)
    && (n <= |p| ==> OnPath(t, p[..|p| - n]) && Arity(Sub(t, p[..|p| - n])) < FANOUT)
  }

  /** How many nodes are allocated beforehand: one for each full node, and one for a new root if all are full. */
  function NodesNeeded(full: nat, h: nat): nat
  {
    if full == h then h + 1 else full
  }

  /** Counts the full nodes from the leaf upwards, and the nodes that inserting into the leaf takes: one for each of
      them, and one for a new root if all nodes of the path are full. */
  method CountFull(m: map<Addr, Node>, h: nat, path: seq<Entry>, ghost t: Tree) returns (n: nat, needed: nat)
    requires Stands(m, t, h) && |path| == h && Tracks(t, path)
    ensures n <= h && FullRun(t, Steps(path), n)
    ensures needed == NodesNeeded(n, h) && (needed == 0 <==> Arity(Sub(t, Steps(path))) < FANOUT)
    ensures Arity(Sub(t, Steps(path))) <= FANOUT
    ensures needed > h <==> forall k :: 0 <= k < h ==> Arity(Sub(t, Steps(path)[..k])) == FANOUT
  {
    n := FullFromLeaf(m, h, path, t);
    EntryAt(m, t, h, path, h - 1);
    assert Steps(path)[..h - 1] == Steps(path);
    needed := n;
    if n == h {
      needed := needed + 1;
    }
  }

  method FullFromLeaf(m: map<Addr, Node>, h: nat, path: seq<Entry>, ghost t: Tree) returns (n: nat)
    requires Stands(m, t, h) && |path| == h && Tracks(t, path)
    ensures n <= h && FullRun(t, Steps(path), n)
  {
    ghost var p := Steps(path);
    n := 0;
    while n < h
      invariant n <= h
      invariant forall k :: h - n <= k < h ==> OnPath(t, p[..k]) && Arity(Sub(t, p[..k])) == FANOUT
    {
      var level := h - 1 - n;
      EntryAt(m, t, h, path, level);
      var node := m[path[level].node];
      var full := if level == h - 1 then LeafHasEntry(node.ranges, FANOUT - 1)
                  else InnerHasEntry(node.keys, FANOUT - 1);
      if !full {
        return;
      }
      n := n + 1;
    }
  }

  /** A node is full exactly when its last slot is in use. */
  lemma EntryAt(m: map<Addr, Node>, t: Tree, h: nat, path: seq<Entry>, k: nat)
    requires Stands(m, t, h) && |path| == h && Tracks(t, path) && k < h
    ensures OnPath(t, Steps(path)[..k]) && path[k].node == Sub(t, Steps(path)[..k]).addr && path[k].node in m
    ensures k == h - 1 ==> m[path[k].node].LeafNode? && |m[path[k].node].ranges| == FANOUT
    ensures k < h - 1 ==> m[path[k].node].InnerNode? && |m[path[k].node].keys| == FANOUT
    ensures var s, n := Sub(t, Steps(path)[..k]), m[path[k].node];
            && Arity(s) <= FANOUT
            && ((if k == h - 1 then LeafHasEntry(n.ranges, FANOUT - 1) else InnerHasEntry(n.keys, FANOUT - 1))
                <==> Arity(s) == FANOUT)
  {
    TrailTaken(t, path, k);
    var q := Steps(path)[..k];
    if k == h - 1 {
      LeafAt(m, t, h, q);
    } else {
      InnerAt(m, t, h, q);
    }
  }

  /** While the high half of the node at depth `n` is pending, the nodes above it are the ones the path passed. */
  ghost predicate Climbing(t0: Tree, path: seq<Entry>, t: Tree, n: nat)
    requires Tracks(t0, path) && n < |path|
  {
    var q := Steps(path)[..n];
    && OnPath(t, q) && Trail(t, path[..n], q)
    && t.addr == t0.addr && FirstLeaf(t).addr == FirstLeaf(t0).addr
    && (forall k :: 0 <= k < n ==>
          OnPath(t0, q[..k]) && OnPath(t, q[..k]) && Arity(Sub(t, q[..k])) == Arity(Sub(t0, q[..k])))
  }

  lemma ClimbStart(t: Tree, path: seq<Entry>)
    requires Tracks(t, path)
    ensures Climbing(t, path, t, |path| - 1)
  {
    var n := |path| - 1;
    TrailTaken(t, path, n);
    var q := Steps(path)[..n];
    forall k | 0 <= k < n ensures OnPath(t, q[..k]) {
      TrailTaken(t, path, k);
      assert q[..k] == Steps(path)[..k];
    }
  }

  lemma ClimbPlug(t0: Tree, path: seq<Entry>, t: Tree, n: nat, k: nat, s: Tree)
    requires Tracks(t0, path) && k <= n < |path| && Climbing(t0, path, t, n)
    requires OnPath(t, Steps(path)[..k])
    requires s.addr == Sub(t, Steps(path)[..k]).addr
    requires FirstLeaf(s).addr == FirstLeaf(Sub(t, Steps(path)[..k])).addr
    ensures Climbing(t0, path, Plug(t, Steps(path)[..k], s), k)
  {
    var q, u := Steps(path)[..n], Steps(path)[..k];
    assert q[..k] == u && path[..n][..k] == path[..k];
    TrailShorter(t, path[..n], q, k);
    TrailPlug(t, path[..k], u, s);
    PlugEnds(t, u, s);
    PlugContext(t, u, s);
    PlugAddr(t, u, s);
    forall j | 0 <= j < k
      ensures OnPath(t0, u[..j]) && OnPath(Plug(t, u, s), u[..j])
      ensures Arity(Sub(Plug(t, u, s), u[..j])) == Arity(Sub(t0, u[..j]))
    {
      assert u[..j] == q[..j];
      SubPlug(t, u, s, j);
    }
  }

  lemma LastTakes(t: Tree, high: Tree, u: seq<int>, i: nat)
    requires OnPath(t, u) && Sub(t, u).Fork? && i < |Sub(t, u).kids| && OnPath(t, u + [i])
    ensures LastOf(Plug(t, u, Widened(t, u, i, high))) == PendingLast(t, high, u + [i])
  {
    hide LastLeaf, Rightmost, Plug, Sub, Left, Right, OnPath, Flat, FlatAll;
    PlugEnds(t, u, Widened(t, u, i, high));
    Deeper(t, u, i);
    LastWidened(Sub(t, u), i, high);
  }

  lemma LastWidened(f: Tree, i: nat, high: Tree)
    requires f.Fork? && i < |f.kids|
    ensures LastLeaf(Fork(f.addr, Insert(f.kids, i + 1, high)))
            == if i + 1 == |f.kids| then LastLeaf(high) else LastLeaf(f)
  {
    var ts := Insert(f.kids, i + 1, high);
    assert ts[|f.kids|] == if i + 1 == |f.kids| then high else f.kids[|f.kids| - 1];
  }

  lemma LastParted(t: Tree, high: Tree, u: seq<int>, i: nat, a: Tree, b: Tree)
    requires OnPath(t, u) && Sub(t, u).Fork? && i < |Sub(t, u).kids| && OnPath(t, u + [i])
    requires a.Fork? && b.Fork? && b.kids != [] && a.kids + b.kids == Insert(Sub(t, u).kids, i + 1, high)
    requires OnPath(Plug(t, u, a), u)
    ensures PendingLast(Plug(t, u, a), b, u) == PendingLast(t, high, u + [i])
  {
    hide OnPath, Plug, Sub, Left, Right;
    var f := Sub(t, u);
    PlugEnds(t, u, a);
    PlugContext(t, u, a);
    Deeper(t, u, i);
    var ts := Insert(f.kids, i + 1, high);
    assert ts[|f.kids|] == if i + 1 == |f.kids| then high else f.kids[|f.kids| - 1];
    assert b.kids[|b.kids| - 1] == ts[|f.kids|];
  }

  method InsertLeafRoom(m0: map<Addr, Node>, h: nat, last0: Ref, leaf: Addr, pos: nat, r: Range, ghost t0: Tree,
                        ghost p: seq<int>)
    returns (m: map<Addr, Node>, last: Ref, ghost t: Tree)
    requires Stands(m0, t0, h) && m0.Keys == Addrs(t0) && FilledRoot(t0) && last0 == LastOf(t0)
    requires OnPath(t0, p) && |p| + 1 == h && Sub(t0, p).Leaf? && leaf == Sub(t0, p).addr
    requires pos <= |Sub(t0, p).rs| < FANOUT && (pos > 0 || AllZero(p)) && r.start < UINT64_MAX
    ensures Built(m, t, h, Left(t0, p) + Insert(Sub(t0, p).rs, pos, r) + Right(t0, p))
    ensures t.addr == t0.addr && FirstLeaf(t).addr == FirstLeaf(t0).addr && last == LastOf(t) && m.Keys == m0.Keys
  {
    LeafAt(m0, t0, h, p);
    ghost var rs := Sub(t0, p).rs;
    var slots := InsertRangeAt(m0[leaf].ranges, pos, r, rs);
    m := m0[leaf := LeafNode(slots)];
    last := if last0.leaf == leaf then Ref(leaf, last0.slot + 1) else last0;
    ghost var s := Leaf(leaf, Insert(rs, pos, r));
    LeafTaken(m0, m, t0, h, p, pos, r, s);
    t := Plug(t0, p, s);
    PlugEnds(t0, p, s);
    LastLeafOnPath(t0, p);
  }

  method InsertLeafFull(m0: map<Addr, Node>, h: nat, last0: Ref, path: seq<Entry>, pos: nat, r: Range, node: Addr,
                        ghost t0: Tree, ghost p: seq<int>)
    returns (m: map<Addr, Node>, last: Ref, high: Addr, sep: nat, ghost t: Tree, ghost hi: Tree)
    requires Stands(m0, t0, h) && m0.Keys == Addrs(t0) && FilledRoot(t0) && last0 == LastOf(t0)
    requires |path| == h && Tracks(t0, path) && p == Steps(path) && |Sub(t0, p).rs| == FANOUT
    requires pos <= FANOUT && (pos > 0 || AllZero(p)) && r.start < UINT64_MAX && node !in m0
    ensures Pending(m, t, hi, p, h, Left(t0, p) + Insert(Sub(t0, p).rs, pos, r) + Right(t0, p))
    ensures Climbing(t0, path, t, h - 1)
    ensures last == PendingLast(t, hi, p) && sep == First(hi) && high == hi.addr
    ensures Adds(m0, m, node)
  {
    var leaf := path[h - 1].node;
    LeafOf(m0, t0, h, path);
    ghost var lo, up;
    m, sep, lo, up := SplitLeafInsert(m0, leaf, node, pos, r, Sub(t0, p).rs);
    high := node;
    last := last0;
    if last.leaf == leaf {
      last := Ref(high, last.slot - MIN_ENTRIES);
    }
    if last.leaf == (if pos > MIN_ENTRIES then high else leaf) {
      last := Ref(last.leaf, last.slot + 1);
    }
    ghost var low := Leaf(leaf, lo);
    hi := Leaf(node, up);
    t := Plug(t0, p, low);
    LeafParted(m0, m, t0, h, p, pos, r, low, hi);
    assert p[..h - 1] == p;
    ClimbStart(t0, path);
    ClimbPlug(t0, path, t0, h - 1, h - 1, low);
    LastAfterSplit(m0, t0, h, p, low, hi, last0, last, pos);
  }

  lemma LeafOf(m: map<Addr, Node>, t: Tree, h: nat, path: seq<Entry>)
    requires Stands(m, t, h) && |path| == h && Tracks(t, path)
    ensures path[h - 1].node == Sub(t, Steps(path)).addr
    ensures path[h - 1].node in m && m[path[h - 1].node].LeafNode?
    ensures LeafHolds(m[path[h - 1].node].ranges, Sub(t, Steps(path)).rs)
  {
    TrailTaken(t, path, h - 1);
    assert Steps(path)[..h - 1] == Steps(path);
    LeafAt(m, t, h, Steps(path));
  }

  lemma LastAfterSplit(m: map<Addr, Node>, t: Tree, h: nat, p: seq<int>, low: Tree, high: Tree, last0: Ref, last: Ref,
                       pos: nat)
    requires Stands(m, t, h) && m.Keys == Addrs(t) && OnPath(t, p) && Sub(t, p).Leaf? && |Sub(t, p).rs| == FANOUT
    requires last0 == LastOf(t) && low.Leaf? && high.Leaf? && low.addr == Sub(t, p).addr && high.addr !in m
    requires |high.rs| == if pos > MIN_ENTRIES then MIN_ENTRIES + 1 else MIN_ENTRIES
    requires var moved := if last0.leaf == low.addr then Ref(high.addr, last0.slot - MIN_ENTRIES) else last0;
             last == if moved.leaf == (if pos > MIN_ENTRIES then high.addr else low.addr)
                     then Ref(moved.leaf, moved.slot + 1) else moved
    requires OnPath(Plug(t, p, low), p)
    ensures last == PendingLast(Plug(t, p, low), high, p)
  {
    PlugEnds(t, p, low);
    PlugContext(t, p, low);
    LastLeafOnPath(t, p);
    EndsInside(t);
    SubAddrs(t, p);
  }

  /** All nodes of the path were full: a new root takes the two halves of the old one. */
  method GrowRoot(m0: map<Addr, Node>, root: Addr, node: Addr, sep: nat, high: Addr, h: nat, ghost low: Tree,
                  ghost hi: Tree, ghost target: seq<Range>)
    returns (m: map<Addr, Node>, ghost t: Tree)
    requires Pending(m0, low, hi, [], h, target) && node !in m0
    requires root == low.addr && high == hi.addr && sep == First(hi)
    ensures Built(m, t, h + 1, target) && t.addr == node && FirstLeaf(t) == FirstLeaf(low)
    ensures LastOf(t) == PendingLast(low, hi, []) && Adds(m0, m, node)
  {
    var keys := seq(FANOUT, i => if i == 1 then sep else UINT64_MAX);
    var children := seq(FANOUT, i => if i == 0 then root else high);
    m := m0[node := InnerNode(keys, children)];
    t := Fork(node, [low, hi]);
    HoldsFrame(m0, m, low);
    HoldsFrame(m0, m, hi);
    assert FlatAll([low, hi]) == Flat(low) + Flat(hi) by {
      FlatAllConcat([low], [hi]);
      FlatAllOne(low);
      FlatAllOne(hi);
      assert [low] + [hi] == [low, hi];
    }
    assert AddrsAll([low, hi]) == Addrs(low) + Addrs(hi) by {
      var ts := [low, hi];
      assert ts[0] == low && ts[1] == hi;
    }
  }

  method TakeIn(m0: map<Addr, Node>, parent: Addr, slot: nat, sep: nat, high: Addr, h: nat, ghost t0: Tree,
                ghost hi: Tree, ghost u: seq<int>, ghost target: seq<Range>)
    returns (m: map<Addr, Node>, ghost t: Tree)
    requires OnPath(t0, u) && Sub(t0, u).Fork? && slot < |Sub(t0, u).kids| < FANOUT
    requires Pending(m0, t0, hi, u + [slot], h, target)
    requires parent == Sub(t0, u).addr && high == hi.addr && sep == First(hi) && HoldsKids(m0, parent, Sub(t0, u).kids)
    ensures Built(m, t, h, target) && t.addr == t0.addr && FirstLeaf(t).addr == FirstLeaf(t0).addr
    ensures LastOf(t) == PendingLast(t0, hi, u + [slot]) && m.Keys == m0.Keys
  {
    m := InsertChild(m0, parent, slot, sep, high, Sub(t0, u).kids, hi);
    ParentTakes(m0, m, t0, hi, u, slot, h, target);
    t := Plug(t0, u, Widened(t0, u, slot, hi));
    LastTakes(t0, hi, u, slot);
    FirstTakes(t0, hi, u, slot);
  }

  lemma FirstTakes(t: Tree, high: Tree, u: seq<int>, i: nat)
    requires OnPath(t, u) && Sub(t, u).Fork? && i < |Sub(t, u).kids|
    ensures FirstLeaf(Plug(t, u, Widened(t, u, i, high))).addr == FirstLeaf(t).addr
  {
    PlugEnds(t, u, Widened(t, u, i, high));
    assert Widened(t, u, i, high).kids[0] == Sub(t, u).kids[0];
  }

  method SplitUp(m0: map<Addr, Node>, parent: Addr, slot: nat, sep0: nat, high0: Addr, node: Addr, h: nat,
                 ghost t1: Tree, ghost hi0: Tree, ghost u: seq<int>, ghost target: seq<Range>,
                 ghost t0: Tree, ghost path: seq<Entry>)
    returns (m: map<Addr, Node>, high: Addr, sep: nat, ghost t: Tree, ghost hi: Tree)
    requires OnPath(t1, u) && Sub(t1, u).Fork? && slot < |Sub(t1, u).kids| == FANOUT
    requires Pending(m0, t1, hi0, u + [slot], h, target)
    requires parent == Sub(t1, u).addr && high0 == hi0.addr && sep0 == First(hi0)
             && HoldsKids(m0, parent, Sub(t1, u).kids)
    requires node !in m0
    requires Tracks(t0, path) && |u| + 1 < |path| && u == Steps(path)[..|u|] && Climbing(t0, path, t1, |u| + 1)
    ensures Pending(m, t, hi, u, h, target) && Climbing(t0, path, t, |u|)
    ensures PendingLast(t, hi, u) == PendingLast(t1, hi0, u + [slot]) && sep == First(hi) && high == hi.addr
    ensures Adds(m0, m, node)
  {
    ghost var lo, up;
    m, sep, lo, up := SplitInnerInsert(m0, parent, node, slot, sep0, high0, Sub(t1, u).kids, hi0);
    high := node;
    ghost var a := Fork(parent, lo);
    hi := Fork(node, up);
    ParentParted(m0, m, t1, hi0, u, slot, h, target, a, hi);
    t := Plug(t1, u, a);
    ClimbPlug(t0, path, t1, |u| + 1, |u|, a);
    LastParted(t1, hi0, u, slot, a, hi);
  }

  /** The parent that the path recorded is the parent in the tree as it stands now, as full as it was. */
  lemma ParentOnPath(m: map<Addr, Node>, t0: Tree, path: seq<Entry>, t: Tree, hi: Tree, n: nat, h: nat,
                     target: seq<Range>)
    requires Tracks(t0, path) && 0 < n < |path| && Climbing(t0, path, t, n) && n < h
    requires Pending(m, t, hi, Steps(path)[..n], h, target)
    ensures var u, i := Steps(path)[..n - 1], path[n - 1].slot;
            && OnPath(t, u) && Sub(t, u).Fork? && 0 <= i < |Sub(t, u).kids| && u + [i] == Steps(path)[..n]
            && path[n - 1].node == Sub(t, u).addr && HoldsKids(m, path[n - 1].node, Sub(t, u).kids)
            && OnPath(t0, u) && Arity(Sub(t, u)) == Arity(Sub(t0, u))
            && |m[path[n - 1].node].keys| == FANOUT
            && (InnerHasEntry(m[path[n - 1].node].keys, FANOUT - 1) <==> |Sub(t, u).kids| == FANOUT)
            && |Sub(t, u).kids| <= FANOUT
  {
    var q, u, i := Steps(path)[..n], Steps(path)[..n - 1], path[n - 1].slot;
    assert q == u + [i] && q[..n - 1] == u;
    assert path[..n][n - 1] == path[n - 1];
    Shallower(t, q);
    InnerAt(m, t, h, u);
  }

  /** All addresses in use are below `brk`. */
  ghost predicate Below(m: map<Addr, Node>, brk: Addr)
  {
    forall a :: a in m ==> a < brk
  }

  /** Memory has grown by exactly the `n` nodes from `spare` on. */
  ghost predicate Allots(m: map<Addr, Node>, m': map<Addr, Node>, spare: Addr, n: nat)
  {
    forall a: Addr :: a in m' <==> a in m || spare <= a < spare + n
  }

  lemma ClimbFacts(t0: Tree, path: seq<Entry>, t: Tree, n: nat)
    requires Tracks(t0, path) && n < |path| && Climbing(t0, path, t, n)
    ensures t.addr == t0.addr && FirstLeaf(t).addr == FirstLeaf(t0).addr && OnPath(t, Steps(path)[..n])
  {
  }

  /** How many of the nodes above are full decides whether the parent splits. */
  lemma FullAbove(t: Tree, p: seq<int>, full: nat, level: nat)
    requires OnPath(t, p) && FullRun(t, p, full) && 0 < level <= |p| && |p| + 1 - level <= full
    requires OnPath(t, p[..level - 1])
    ensures Arity(Sub(t, p[..level - 1])) == FANOUT ==> |p| + 2 - level <= full
    ensures Arity(Sub(t, p[..level - 1])) < FANOUT ==> full == |p| + 1 - level
  {
    if full == |p| + 1 - level {
      assert p[..|p| - full] == p[..level - 1];
    }
  }

  /** Hands the high half of the node at depth `n` to its parent, which is split if it is full. */
  method HandUp(m0: map<Addr, Node>, h: nat, path: seq<Entry>, n: nat, full: nat, node: Addr,
                high0: Addr, sep0: nat, ghost t0: Tree, ghost t1: Tree, ghost hi0: Tree, ghost target: seq<Range>)
    returns (done: bool, m: map<Addr, Node>, high: Addr, sep: nat, ghost t: Tree, ghost hi: Tree)
    requires |path| == h && Tracks(t0, path) && FullRun(t0, Steps(path), full) && 0 < n < h && h - n <= full
    requires Pending(m0, t1, hi0, Steps(path)[..n], h, target) && Climbing(t0, path, t1, n)
    requires sep0 == First(hi0) && high0 == hi0.addr && (h - n < full ==> node !in m0)
    ensures done <==> full == h - n
    ensures done ==> && Built(m, t, h, target) && t.addr == t0.addr && FirstLeaf(t).addr == FirstLeaf(t0).addr
                     && LastOf(t) == PendingLast(t1, hi0, Steps(path)[..n]) && m.Keys == m0.Keys
    ensures !done ==> && Pending(m, t, hi, Steps(path)[..n - 1], h, target) && Climbing(t0, path, t, n - 1)
                      && PendingLast(t, hi, Steps(path)[..n - 1]) == PendingLast(t1, hi0, Steps(path)[..n])
                      && sep == First(hi) && high == hi.addr && Adds(m0, m, node)
  {
    hide Pending, Climbing, Stands, Built, LastOf, PendingLast, Passes, HoldsKids, Left, Right, Sub, OnPath, FullRun,
         First;
    var parent, slot := path[n - 1].node, path[n - 1].slot;
    ghost var u := Steps(path)[..n - 1];
    ParentOnPath(m0, t0, path, t1, hi0, n, h, target);
    FullAbove(t0, Steps(path), full, n);
    ClimbFacts(t0, path, t1, n);
    hi := hi0;
    if !InnerHasEntry(m0[parent].keys, FANOUT - 1) {
      done, high, sep := true, high0, sep0;
      m, t := TakeIn(m0, parent, slot, sep0, high0, h, t1, hi0, u, target);
    } else {
      done := false;
      m, high, sep, t, hi := SplitUp(m0, parent, slot, sep0, high0, node, h, t1, hi0, u, target, t0, path);
    }
  }

  lemma WholePath(t: Tree, path: seq<Entry>, full: nat)
    requires Tracks(t, path) && FullRun(t, Steps(path), full)
    ensures Steps(path)[..|path| - 1] == Steps(path) && full <= |path|
    ensures full == 0 <==> |Sub(t, Steps(path)).rs| < FANOUT
    ensures full > 0 ==> |Sub(t, Steps(path)).rs| == FANOUT
  {
    var p := Steps(path);
    assert p[..|p|] == p;
  }

  /** Hands the high half of a split node to the parent, splitting the parent if it is full, and so on up to a new
      root. The nodes allocated beforehand are the addresses from `spare` on. */
  method ClimbUp(m0: map<Addr, Node>, root0: Addr, h0: nat, path: seq<Entry>, full: nat, spare: Addr,
                 high0: Addr, sep0: nat, ghost t0: Tree, ghost t1: Tree, ghost hi0: Tree, ghost target: seq<Range>)
    returns (m: map<Addr, Node>, root: Addr, h: nat, ghost t: Tree)
    requires |path| == h0 && Tracks(t0, path) && FullRun(t0, Steps(path), full) && 1 <= full && t0.addr == root0
    requires Pending(m0, t1, hi0, Steps(path), h0, target) && Climbing(t0, path, t1, h0 - 1)
    requires sep0 == First(hi0) && high0 == hi0.addr && Below(m0, spare + 1)
    ensures Built(m, t, h, target) && LastOf(t) == PendingLast(t1, hi0, Steps(path))
    ensures t.addr == root && FirstLeaf(t).addr == FirstLeaf(t0).addr
    ensures h == if full == h0 then h0 + 1 else h0
    ensures Allots(m0, m, spare + 1, NodesNeeded(full, h0) - 1)
  {
    hide Pending, Climbing, Stands, Built, LastOf, PendingLast, Passes, Left, Right, Sub, OnPath, FullRun, First,
         Tracks;
    ghost var p := Steps(path);
    WholePath(t0, path, full);
    ClimbFacts(t0, path, t1, h0 - 1);
    root, h, m, t := root0, h0, m0, t1;
    ghost var hi := hi0;
    var level, used, high, sep := h0 - 1, 1, high0, sep0;
    while true
      invariant 0 <= level < h0 && used == h0 - level <= full
      invariant Pending(m, t, hi, p[..level], h0, target) && Climbing(t0, path, t, level)
      invariant OnPath(t1, p) && OnPath(t, p[..level])
      invariant PendingLast(t, hi, p[..level]) == PendingLast(t1, hi0, p) && sep == First(hi) && high == hi.addr
      invariant Allots(m0, m, spare + 1, used - 1)
      decreases level
    {
      if level == 0 {
        ClimbFacts(t0, path, t, 0);
        assert p[..0] == [];
        m, t := GrowRoot(m, root, spare + used, sep, high, h0, t, hi, target);
        root, h := spare + used, h0 + 1;
        return;
      }
      var done;
      done, m, high, sep, t, hi := HandUp(m, h0, path, level, full, spare + used, high, sep, t0, t, hi, target);
      if done {
        return;
      }
      ClimbFacts(t0, path, t, level - 1);
      level, used := level - 1, used + 1;
    }
  }

  /** Inserts a range right after the one the path addresses. */
  method InsertIn(m0: map<Addr, Node>, root0: Addr, h0: nat, last0: Ref, path: seq<Entry>, r: Range,
                  full: nat, spare: Addr, ghost t0: Tree)
    returns (m: map<Addr, Node>, root: Addr, h: nat, last: Ref, ghost t: Tree)
    requires Stands(m0, t0, h0) && m0.Keys == Addrs(t0) && FilledRoot(t0) && t0.addr == root0 && last0 == LastOf(t0)
    requires |path| == h0 && Tracks(t0, path) && FullRun(t0, Steps(path), full)
    requires path[h0 - 1].slot >= 0 || AllZero(Steps(path))
    requires r.start < UINT64_MAX && Below(m0, spare)
    ensures Built(m, t, h, Left(t0, Steps(path)) + Insert(Sub(t0, Steps(path)).rs, path[h0 - 1].slot + 1, r)
                  + Right(t0, Steps(path)))
    ensures t.addr == root && FirstLeaf(t).addr == FirstLeaf(t0).addr && last == LastOf(t)
    ensures h == if full == h0 then h0 + 1 else h0
    ensures Allots(m0, m, spare, NodesNeeded(full, h0)) && Below(m, spare + NodesNeeded(full, h0))
  {
    hide Pending, Climbing, Stands, FilledRoot, Built, LastOf, PendingLast, Passes, HoldsKids, AllZero, Left, Right,
         Sub, OnPath, FullRun;
    var leaf, pos := path[h0 - 1].node, path[h0 - 1].slot + 1;
    ghost var p := Steps(path);
    EntryAt(m0, t0, h0, path, h0 - 1);
    WholePath(t0, path, full);
    root, h := root0, h0;
    if full == 0 {
      m, last, t := InsertLeafRoom(m0, h0, last0, leaf, pos, r, t0, p);
      return;
    }
    var high, sep;
    ghost var hi;
    m, last, high, sep, t, hi := InsertLeafFull(m0, h0, last0, path, pos, r, spare, t0, p);
    m, root, h, t := ClimbUp(m, root0, h0, path, full, spare, high, sep, t0, t, hi,
                             Left(t0, p) + Insert(Sub(t0, p).rs, pos, r) + Right(t0, p));
  }
}
