/** Deletion from the B+ tree: the leaf gives up the range, and nodes that became too small borrow from a neighbour or
    merge with it, from the bottom up, while the path keeps track of the range before the removed one. */
module BPlusDeletes {
  import opened Basics
  import opened Ranges
  import opened BPlusNodes
  import opened BPlusTrees
  import opened BPlusOrders
  import opened BPlusPaths
  import opened BPlusRebalances

  // ----- separators -----

  /** Once a leaf has changed, updates the separator that refers to its smallest start, if there is one. */
  method UpdateSeparator(m1: map<Addr, Node>, path: seq<Entry>, newMin: nat, ghost m: map<Addr, Node>, ghost t: Tree,
                         ghost s: Tree)
    returns (m2: map<Addr, Node>)
    requires Tracks(t, path) && Holds(m, t) && Distinct(t) && s.Leaf? && s.addr == Sub(t, Steps(path)).addr
    requires Holds(m1, s) && Agree(m, m1, Addrs(t) - {s.addr})
    requires newMin == First(s) && (|path| > 1 ==> newMin < UINT64_MAX)
    ensures Holds(m2, Plug(t, Steps(path), s)) && m2.Keys == m1.Keys
    ensures AgreeOff(m1, m2, Addrs(t))
  {
    hide Holds, Distinct, Addrs, OnPath, Sub, Plug, First;
    ghost var p := Steps(path);
    LeafAddrs(t, path, s);
    var level, found := SeparatorLevel(path);
    if found {
      Reseparate(m, m1, t, p, s, level);
      TrailTaken(t, path, level);
      AddrInside(t, p[..level]);
      var node := m1[path[level].node];
      m2 := m1[path[level].node := InnerNode(node.keys[path[level].slot := newMin], node.children)];
    } else {
      Graft(m, m1, t, p, s);
      m2 := m1;
    }
  }

  /** The lowest level at which the path does not go through the first child. */
  method SeparatorLevel(path: seq<Entry>) returns (level: nat, found: bool)
    requires path != []
    ensures found ==> level < |path| - 1 && Steps(path)[level] != 0 && AllZero(Steps(path)[level + 1..])
    ensures !found ==> AllZero(Steps(path))
  {
    ghost var p := Steps(path);
    level := |path| - 1;
    assert p[level..] == [];
    while level != 0
      invariant 0 <= level < |path| && AllZero(p[level..])
    {
      level := level - 1;
      if path[level].slot != 0 {
        found := true;
        return;
      }
      assert p[level..] == [p[level]] + p[level + 1..];
    }
    assert p[0..] == p;
    found := false;
  }

  lemma LeafAddrs(t: Tree, path: seq<Entry>, s: Tree)
    requires Tracks(t, path) && s.Leaf? && s.addr == Sub(t, Steps(path)).addr
    ensures Addrs(Sub(t, Steps(path))) == {s.addr} && Addrs(s) == {s.addr} && Distinct(s)
  {
  }

  lemma AddrInside(t: Tree, p: seq<int>)
    requires OnPath(t, p)
    ensures Sub(t, p).addr in Addrs(t)
  {
    SubAddrs(t, p);
  }

  /** One leaf replaced by another at the same address. */
  lemma LeafSwapped(m: map<Addr, Node>, m': map<Addr, Node>, t: Tree, h: nat, p: seq<int>, s: Tree)
    requires Stands(m, t, h) && OnPath(t, p) && Sub(t, p).Leaf? && s.Leaf? && s.addr == Sub(t, p).addr
    requires Holds(m', Plug(t, p, s)) && FillAround(t, p, 2)
    ensures var t' := Plug(t, p, s);
            && Stands(m', t', h) && Addrs(t') == Addrs(t) && t'.addr == t.addr
            && OnPath(t', p) && Sub(t', p) == s && Left(t', p) == Left(t, p) && Right(t', p) == Right(t, p)
            && Flat(t') == Left(t, p) + s.rs + Right(t, p) && FillAround(t', p, 2)
            && FirstLeaf(t').addr == FirstLeaf(t).addr
            && LastLeaf(t') == if Rightmost(t, p) then s else LastLeaf(t)
  {
    SubAddrs(t, p);
    SubHeight(t, p, h);
    PlugAddrs(t, p, s);
    PlugHeight(t, p, h, s);
    PlugContext(t, p, s);
    FlatPlug(t, p, s);
    PlugAddr(t, p, s);
    PlugEnds(t, p, s);
    FillAroundPlug(t, p, 2, s);
  }

  // ----- the state between two levels -----

  /** Memory holds exactly a tree that lists `target`; the path addresses index `idx`; every node is filled, except that
      the one at depth `n` of the path may be one entry short. */
  ghost predicate Lean(m: map<Addr, Node>, t: Tree, h: nat, path: seq<Entry>, n: nat, target: seq<Range>, idx: int)
  {
    && Stands(m, t, h) && m.Keys == Addrs(t) && |path| == h && n < h && Follows(t, path)
    && OnPath(t, Steps(path)[..n]) && FillAround(t, Steps(path)[..n], 2)
    && KidsFilled(Sub(t, Steps(path)[..n]))
    && (if n == 0 then 1 else MIN_ENTRIES - 1) <= Arity(Sub(t, Steps(path)[..n])) <= FANOUT
    && Flat(t) == target && Rank(t, path) == idx
  }

  lemma LeanFilled(m: map<Addr, Node>, t: Tree, h: nat, path: seq<Entry>, n: nat, target: seq<Range>, idx: int)
    requires Lean(m, t, h, path, n, target, idx)
    requires Arity(Sub(t, Steps(path)[..n])) >= if n > 0 then MIN_ENTRIES else if h == 1 then 1 else 2
    ensures FilledRoot(t)
  {
    SubHeight(t, Steps(path)[..n], h);
    FilledRootJoins(t, Steps(path)[..n]);
  }

  /** The parent of the node at depth `n` was replaced: the same holds one level up. */
  lemma LeanUp(m: map<Addr, Node>, m': map<Addr, Node>, t: Tree, h: nat, path: seq<Entry>, path': seq<Entry>, n: nat,
               f: Tree, target: seq<Range>, idx: int)
    requires Lean(m, t, h, path, n, target, idx) && 0 < n
    requires OnPath(t, Steps(path)[..n - 1]) && FillAround(t, Steps(path)[..n - 1], 2)
    requires |path'| == h && path'[..n - 1] == path[..n - 1]
    requires var g, k := Sub(t, Steps(path)[..n - 1]), h - (n - 1);
             && Stands(m', f, k) && f.addr == g.addr && First(f) == First(g) && Flat(f) == Flat(g)
             && Addrs(f) <= Addrs(g) && m'.Keys == (Addrs(t) - Addrs(g)) + Addrs(f)
             && AgreeOff(m, m', Addrs(g)) && KidsFilled(f)
             && (if n == 1 then 1 else MIN_ENTRIES - 1) <= Arity(f) <= FANOUT
             && Follows(f, path'[n - 1..]) && Follows(g, path[n - 1..])
             && Rank(f, path'[n - 1..]) == Rank(g, path[n - 1..])
    ensures Steps(path')[..n - 1] == Steps(path)[..n - 1]
    ensures Lean(m', Plug(t, Steps(path)[..n - 1], f), h, path', n - 1, target, idx)
    ensures Plug(t, Steps(path)[..n - 1], f).addr == t.addr && Addrs(Plug(t, Steps(path)[..n - 1], f)) <= Addrs(t)
  {
    hide Holds, Distinct, Addrs, HasHeight, FillAround, Flat, First, Left, Right, Sub, Plug, OnPath, KidsFilled,
         Rank, Follows, Trail;
    var u := Steps(path)[..n - 1];
    var t' := Plug(t, u, f);
    Regraft(m, m', t, h, u, f, 2);
    FlatSplit(t, u);
    SubAddrs(t, u);
    FollowsBelow(t, path, n - 1);
    TrailHead(t, path, n - 1);
    TrailPlug(t, path[..n - 1], u, f);
    FollowsAbove(t', path[..n - 1], u, path'[n - 1..]);
    assert path' == path[..n - 1] + path'[n - 1..];
  }

  lemma TrailHead(t: Tree, path: seq<Entry>, n: nat)
    requires Follows(t, path) && n < |path|
    ensures Trail(t, path[..n], Steps(path)[..n])
  {
    FollowsSteps(t, path);
    TrailTaken(t, path, n);
  }

  // ----- the last range -----

  lemma LastRedivided(t: Tree, u: seq<int>, i: nat, a: Tree, b: Tree, last: Ref)
    requires OnPath(t, u) && Distinct(t) && Sub(t, u).Fork? && i + 1 < |Sub(t, u).kids| && last == LastOf(t)
    requires Redivides(Sub(t, u).kids[i], Sub(t, u).kids[i + 1], a, b)
    ensures LastOf(Plug(t, u, TwoKids(Sub(t, u), i, a, b))) ==
            if b.Leaf? && last.leaf == b.addr then Ref(b.addr, last.slot + Arity(b) - Arity(Sub(t, u).kids[i + 1]))
            else last
  {
    hide Distinct, Addrs, FlatAll, Flat, Left, Right, Plug;
    var f := Sub(t, u);
    var low, high := f.kids[i], f.kids[i + 1];
    PlugEnds(t, u, TwoKids(f, i, a, b));
    Deeper(t, u, i + 1);
    if b.Leaf? {
      LastLeafOnPath(t, u + [i + 1]);
    } else {
      JoinLast(low, high);
      JoinLast(a, b);
    }
  }

  lemma LastMerged(t: Tree, u: seq<int>, i: nat, last: Ref)
    requires OnPath(t, u) && Distinct(t) && Sub(t, u).Fork? && i + 1 < |Sub(t, u).kids| && last == LastOf(t)
    requires Sub(t, u).kids[i].Leaf? == Sub(t, u).kids[i + 1].Leaf? && Arity(Sub(t, u).kids[i + 1]) > 0
    ensures var low, high := Sub(t, u).kids[i], Sub(t, u).kids[i + 1];
            LastOf(Plug(t, u, OneKid(Sub(t, u), i, Join(low, high)))) ==
            if high.Leaf? && last.leaf == high.addr then Ref(low.addr, Arity(low) + last.slot) else last
  {
    hide Distinct, Addrs, FlatAll, Flat, Left, Right, Plug;
    var f := Sub(t, u);
    var low, high := f.kids[i], f.kids[i + 1];
    PlugEnds(t, u, OneKid(f, i, Join(low, high)));
    Deeper(t, u, i + 1);
    var ts := OneKid(f, i, Join(low, high)).kids;
    assert ts[|ts| - 1] == if i + 2 == |f.kids| then Join(low, high) else f.kids[|f.kids| - 1];
    if high.Leaf? {
      LastLeafOnPath(t, u + [i + 1]);
    } else {
      JoinLast(low, high);
    }
  }

  // ----- one level -----

  /** What is known of the parent of the node at depth `n`. */
  ghost predicate Parent(m: map<Addr, Node>, t: Tree, h: nat, path: seq<Entry>, n: nat)
  {
    && 0 < n < h == |path| && OnPath(t, Steps(path)[..n - 1]) && FillAround(t, Steps(path)[..n - 1], 2)
    && var f, i := Sub(t, Steps(path)[..n - 1]), path[n - 1].slot;
    && f.Fork? && 0 <= i < |f.kids| && Stands(m, f, h - (n - 1)) && Addrs(f) <= Addrs(t)
    && (if n == 1 then 2 else MIN_ENTRIES) <= |f.kids| <= FANOUT
    && (forall j :: 0 <= j < |f.kids| && j != i ==> Filled(f.kids[j])) && KidsFilled(f.kids[i])
    && (forall j :: 0 <= j < |f.kids| ==> f.kids[j].Leaf? == (n == h - 1))
    && path[n - 1].node == f.addr && path[n].node == f.kids[i].addr && Follows(f, path[n - 1..])
    && OnPath(t, Steps(path)[..n]) && f.kids[i] == Sub(t, Steps(path)[..n])
  }

  lemma LeanParent(m: map<Addr, Node>, t: Tree, h: nat, path: seq<Entry>, n: nat, target: seq<Range>, idx: int)
    requires Lean(m, t, h, path, n, target, idx) && 0 < n
    ensures Parent(m, t, h, path, n)
  {
    hide Holds, Distinct, Addrs, Flat, First, Left, Right, Rank, Filled, OnPath, Sub, Follows;
    var p, q, u, i := Steps(path), Steps(path)[..n], Steps(path)[..n - 1], path[n - 1].slot;
    assert q == u + [i] && q[..n - 1] == u;
    Shallower(t, q);
    FillAroundDeeper(t, u, i, 2);
    SubHolds(m, t, u);
    SubAddrs(t, u);
    SubHeight(t, u, h);
    FollowsBelow(t, path, n - 1);
    FollowsSteps(t, path);
  }

  lemma AfterBorrow(m: map<Addr, Node>, m': map<Addr, Node>, t: Tree, h: nat, path: seq<Entry>, path': seq<Entry>,
                    n: nat, i: nat, a: Tree, b: Tree, target: seq<Range>, idx: int)
    requires Lean(m, t, h, path, n, target, idx) && Parent(m, t, h, path, n)
    requires var f := Sub(t, Steps(path)[..n - 1]);
             && i + 1 < |f.kids| && (i == path[n - 1].slot || i + 1 == path[n - 1].slot) && Redivided(m, m', f, i, a, b)
             && MIN_ENTRIES <= Arity(a) <= FANOUT && MIN_ENTRIES <= Arity(b) <= FANOUT
             && |path'| == h && path'[..n - 1] == path[..n - 1]
             && Follows(TwoKids(f, i, a, b), path'[n - 1..])
             && Rank(TwoKids(f, i, a, b), path'[n - 1..]) == Rank(f, path[n - 1..])
    ensures var u := Steps(path)[..n - 1]; var t' := Plug(t, u, TwoKids(Sub(t, u), i, a, b));
            && Steps(path')[..n - 1] == u && Lean(m', t', h, path', n - 1, target, idx) && t'.addr == t.addr
            && FirstLeaf(t').addr == FirstLeaf(t).addr && OnPath(t', u) && Addrs(t') <= Addrs(t)
            && Arity(Sub(t', u)) == Arity(Sub(t, u))
  {
    hide Holds, Distinct, Addrs, Flat, First, Left, Right, Rank, Follows, FillAround, HasHeight;
    var u := Steps(path)[..n - 1];
    var f := Sub(t, u);
    var f' := TwoKids(f, i, a, b);
    var low, high := f.kids[i], f.kids[i + 1];
    TwoKidsFlat(f, i, a, b);
    TwoKidsAddrs(f, i, a, b);
    TwoKidsShape(f, i, a, b, h - (n - 1));
    FilledKids(low);
    FilledKids(high);
    TwoKidsFill(f, i, a, b);
    LeanUp(m, m', t, h, path, path', n, f', target, idx);
    PlugEnds(t, u, f');
    PlugContext(t, u, f');
  }

  lemma FilledKids(t: Tree)
    ensures Filled(t) ==> KidsFilled(t) && MIN_ENTRIES <= Arity(t) <= FANOUT
  {
  }

  lemma AfterMerge(m: map<Addr, Node>, m': map<Addr, Node>, t: Tree, h: nat, path: seq<Entry>, path': seq<Entry>,
                   n: nat, i: nat, target: seq<Range>, idx: int)
    requires Lean(m, t, h, path, n, target, idx) && Parent(m, t, h, path, n)
    requires var f := Sub(t, Steps(path)[..n - 1]);
             && i + 1 < |f.kids| && (i == path[n - 1].slot || i + 1 == path[n - 1].slot)
             && Arity(f.kids[i]) > 0 && Arity(f.kids[i + 1]) > 0
             && MIN_ENTRIES <= Arity(f.kids[i]) + Arity(f.kids[i + 1]) <= FANOUT
             && Merged(m, m', f, i)
             && |path'| == h && path'[..n - 1] == path[..n - 1]
             && var f' := OneKid(f, i, Join(f.kids[i], f.kids[i + 1]));
             && Follows(f', path'[n - 1..]) && Rank(f', path'[n - 1..]) == Rank(f, path[n - 1..])
    ensures var u := Steps(path)[..n - 1]; var f := Sub(t, u);
            var t' := Plug(t, u, OneKid(f, i, Join(f.kids[i], f.kids[i + 1])));
            && Steps(path')[..n - 1] == u && Lean(m', t', h, path', n - 1, target, idx) && t'.addr == t.addr
            && FirstLeaf(t').addr == FirstLeaf(t).addr && OnPath(t', u) && Sub(t', u).Fork? && Addrs(t') <= Addrs(t)
  {
    hide Holds, Distinct, Addrs, Flat, First, Left, Right, Rank, Follows, FillAround, HasHeight;
    var u := Steps(path)[..n - 1];
    var f := Sub(t, u);
    var f' := OneKid(f, i, Join(f.kids[i], f.kids[i + 1]));
    OneKidFlat(f, i);
    OneKidAddrs(f, i);
    OneKidShape(f, i, h - (n - 1));
    FilledKids(f.kids[i]);
    FilledKids(f.kids[i + 1]);
    OneKidFill(f, i);
    HighInside(f, i);
    LeanUp(m, m', t, h, path, path', n, f', target, idx);
    PlugEnds(t, u, f');
    PlugContext(t, u, f');
  }

  lemma HighInside(f: Tree, i: nat)
    requires f.Fork? && i + 1 < |f.kids|
    ensures f.kids[i + 1].addr in Addrs(f)
  {
    AddrsOfKid(f, i + 1);
  }

  // ----- the four ways -----

  /** What one level of rebalancing promises: the same tree contents and position, one level further up. */
  ghost predicate Raised(m: map<Addr, Node>, t: Tree, h: nat, path: seq<Entry>, n: nat, target: seq<Range>, idx: int,
                         last: Ref, t0: Tree)
  {
    && Lean(m, t, h, path, n, target, idx) && last == LastOf(t)
    && t.addr == t0.addr && FirstLeaf(t).addr == FirstLeaf(t0).addr && Addrs(t) <= Addrs(t0)
  }

  lemma TwoAhead(path: seq<Entry>, n: nat, x: Entry, y: Entry)
    requires 0 < n < |path|
    ensures path[n - 1..] == [path[n - 1], path[n]] + path[n + 1..]
    ensures path[n - 1 := x][n := y][n - 1..] == [x, y] + path[n + 1..]
    ensures path[n - 1 := x][n := y][..n - 1] == path[..n - 1]
  {
  }

  lemma ParentNeighbours(m: map<Addr, Node>, t: Tree, h: nat, path: seq<Entry>, n: nat, i: nat)
    requires Parent(m, t, h, path, n)
    requires var f := Sub(t, Steps(path)[..n - 1]);
             && i + 1 < |f.kids| && (i == path[n - 1].slot || i + 1 == path[n - 1].slot)
             && Arity(f.kids[path[n - 1].slot]) > 0
    ensures Neighbours(m, Sub(t, Steps(path)[..n - 1]), i)
  {
    var f := Sub(t, Steps(path)[..n - 1]);
    FilledKids(f.kids[i]);
    FilledKids(f.kids[i + 1]);
  }

  method StepBorrowHigh(m: map<Addr, Node>, h: nat, last: Ref, path: seq<Entry>, n: nat,
                        ghost t: Tree, ghost target: seq<Range>, ghost idx: int)
    returns (m': map<Addr, Node>, last': Ref, ghost t': Tree)
    requires Lean(m, t, h, path, n, target, idx) && Parent(m, t, h, path, n) && last == LastOf(t)
    requires var f, i := Sub(t, Steps(path)[..n - 1]), path[n - 1].slot;
             i + 1 < |f.kids| && Arity(f.kids[i]) == MIN_ENTRIES - 1 && Arity(f.kids[i + 1]) > MIN_ENTRIES
    ensures Raised(m', t', h, path, n - 1, target, idx, last', t)
    ensures Arity(Sub(t', Steps(path)[..n - 1])) >= if n > 1 then MIN_ENTRIES else 2
  {
    var parent, i := path[n - 1].node, path[n - 1].slot;
    ghost var u := Steps(path)[..n - 1];
    ghost var f := Sub(t, u);
    ParentNeighbours(m, t, h, path, n, i);
    NeighbourAddrs(m, f, i);
    var high := m[parent].children[i + 1];
    ghost var a, b;
    m', a, b := BorrowFromHigh(m, parent, n == h - 1, i, f);
    last' := if n == h - 1 && last.leaf == high then Ref(high, last.slot - 1) else last;
    t' := Plug(t, u, TwoKids(f, i, a, b));
    FilledKids(f.kids[i + 1]);
    TwoAhead(path, n, path[n - 1], path[n]);
    TwoKidsRankLow(f, i, a, b, path[n].slot, path[n + 1..]);
    AfterBorrow(m, m', t, h, path, path, n, i, a, b, target, idx);
    LastRedivided(t, u, i, a, b, last);
  }

  method StepBorrowLow(m: map<Addr, Node>, h: nat, last: Ref, path: seq<Entry>, n: nat,
                       ghost t: Tree, ghost target: seq<Range>, ghost idx: int)
    returns (m': map<Addr, Node>, last': Ref, path': seq<Entry>, ghost t': Tree)
    requires Lean(m, t, h, path, n, target, idx) && Parent(m, t, h, path, n) && last == LastOf(t)
             && AscendingStarts(target)
    requires var f, i := Sub(t, Steps(path)[..n - 1]), path[n - 1].slot;
             i > 0 && Arity(f.kids[i]) == MIN_ENTRIES - 1 && Arity(f.kids[i - 1]) > MIN_ENTRIES
    ensures Raised(m', t', h, path', n - 1, target, idx, last', t)
    ensures Arity(Sub(t', Steps(path')[..n - 1])) >= if n > 1 then MIN_ENTRIES else 2
  {
    hide Holds, Distinct, Addrs, Left, Right, FillAround, First, FirstLeaf, HasHeight, Plug, OnPath, Flat;
    var parent, i := path[n - 1].node, path[n - 1].slot - 1;
    ghost var u := Steps(path)[..n - 1];
    ghost var f := Sub(t, u);
    ParentNeighbours(m, t, h, path, n, i);
    NeighbourAddrs(m, f, i);
    LowAscends(m, t, h, path, n, target, idx, i);
    var high := m[parent].children[i + 1];
    ghost var a, b;
    m', a, b := BorrowFromLow(m, parent, n == h - 1, i, f);
    last' := if n == h - 1 && last.leaf == high then Ref(high, last.slot + 1) else last;
    t' := Plug(t, u, TwoKids(f, i, a, b));
    FilledKids(f.kids[i]);
    path' := path[n := Entry(path[n].node, path[n].slot + 1)];
    TwoAhead(path, n, path[n - 1], Entry(path[n].node, path[n].slot + 1));
    assert path' == path[n - 1 := path[n - 1]][n := Entry(path[n].node, path[n].slot + 1)];
    TwoKidsRankHigh(f, i, a, b, path[n].slot, path[n + 1..]);
    AfterBorrow(m, m', t, h, path, path', n, i, a, b, target, idx);
    LastRedivided(t, u, i, a, b, last);
  }

  lemma LowAscends(m: map<Addr, Node>, t: Tree, h: nat, path: seq<Entry>, n: nat, target: seq<Range>, idx: int, i: nat)
    requires Lean(m, t, h, path, n, target, idx) && Parent(m, t, h, path, n) && AscendingStarts(target)
    requires var f := Sub(t, Steps(path)[..n - 1]); i < |f.kids| && i != path[n - 1].slot
    ensures var low := Sub(t, Steps(path)[..n - 1]).kids[i];
            if low.Leaf? then AscendingStarts(low.rs) else Ascending(Mins(low.kids))
  {
    hide Holds, Distinct, Addrs, Left, Right, Rank, Follows, FillAround, First;
    var u := Steps(path)[..n - 1];
    Deeper(t, u, i);
    AscendingSub(t, u + [i]);
    var low := Sub(t, u).kids[i];
    assert HasHeight(low, h - n) && Filled(low);
    if low.Fork? {
      MinsAscend(low.kids, h - n - 1);
    }
  }

  method StepMergeHigh(m: map<Addr, Node>, h: nat, last: Ref, path: seq<Entry>, n: nat,
                       ghost t: Tree, ghost target: seq<Range>, ghost idx: int)
    returns (m': map<Addr, Node>, last': Ref, ghost t': Tree)
    requires Lean(m, t, h, path, n, target, idx) && Parent(m, t, h, path, n) && last == LastOf(t)
    requires var f, i := Sub(t, Steps(path)[..n - 1]), path[n - 1].slot;
             i + 1 < |f.kids| && Arity(f.kids[i]) == MIN_ENTRIES - 1 && Arity(f.kids[i + 1]) == MIN_ENTRIES
    ensures Raised(m', t', h, path, n - 1, target, idx, last', t) && Sub(t', Steps(path)[..n - 1]).Fork?
  {
    var parent, i := path[n - 1].node, path[n - 1].slot;
    ghost var u := Steps(path)[..n - 1];
    ghost var f := Sub(t, u);
    ParentNeighbours(m, t, h, path, n, i);
    NeighbourAddrs(m, f, i);
    var low, high := m[parent].children[i], m[parent].children[i + 1];
    m' := Merge(m, parent, n == h - 1, i, MIN_ENTRIES - 1, f);
    last' := if n == h - 1 && last.leaf == high then Ref(low, MIN_ENTRIES - 1 + last.slot) else last;
    t' := Plug(t, u, OneKid(f, i, Join(f.kids[i], f.kids[i + 1])));
    TwoAhead(path, n, path[n - 1], path[n]);
    OneKidRankLow(f, i, path[n].slot, path[n + 1..]);
    AfterMerge(m, m', t, h, path, path, n, i, target, idx);
    LastMerged(t, u, i, last);
  }

  method StepMergeLow(m: map<Addr, Node>, h: nat, last: Ref, path: seq<Entry>, n: nat,
                      ghost t: Tree, ghost target: seq<Range>, ghost idx: int)
    returns (m': map<Addr, Node>, last': Ref, path': seq<Entry>, ghost t': Tree)
    requires Lean(m, t, h, path, n, target, idx) && Parent(m, t, h, path, n) && last == LastOf(t)
    requires var f, i := Sub(t, Steps(path)[..n - 1]), path[n - 1].slot;
             i > 0 && Arity(f.kids[i]) == MIN_ENTRIES - 1 && Arity(f.kids[i - 1]) == MIN_ENTRIES
    ensures Raised(m', t', h, path', n - 1, target, idx, last', t) && Sub(t', Steps(path')[..n - 1]).Fork?
  {
    var parent, i := path[n - 1].node, path[n - 1].slot - 1;
    ghost var u := Steps(path)[..n - 1];
    ghost var f := Sub(t, u);
    ParentNeighbours(m, t, h, path, n, i);
    NeighbourAddrs(m, f, i);
    var low, high := m[parent].children[i], m[parent].children[i + 1];
    m' := Merge(m, parent, n == h - 1, i, MIN_ENTRIES, f);
    last' := if n == h - 1 && last.leaf == high then Ref(low, MIN_ENTRIES + last.slot) else last;
    t' := Plug(t, u, OneKid(f, i, Join(f.kids[i], f.kids[i + 1])));
    var above, here := Entry(parent, i), Entry(low, path[n].slot + MIN_ENTRIES);
    path' := path[n - 1 := above][n := here];
    TwoAhead(path, n, above, here);
    OneKidRankHigh(f, i, path[n].slot, path[n + 1..]);
    AfterMerge(m, m', t, h, path, path', n, i, target, idx);
    LastMerged(t, u, i, last);
  }

  // ----- all levels -----

  predicate HasEntry(n: Node, i: nat)
    requires if n.LeafNode? then i < |n.ranges| else i < |n.keys|
  {
    if n.LeafNode? then LeafHasEntry(n.ranges, i) else InnerHasEntry(n.keys, i)
  }

  /** A node has more than `i` entries exactly when slot `i` is in use. */
  lemma EntryMeans(m: map<Addr, Node>, t: Tree, i: nat)
    requires Holds(m, t) && 0 < i < FANOUT
    ensures t.addr in m && (m[t.addr].LeafNode? <==> t.Leaf?)
    ensures if t.Leaf? then |m[t.addr].ranges| == FANOUT else |m[t.addr].keys| == FANOUT
    ensures HasEntry(m[t.addr], i) <==> i < Arity(t)
  {
  }

  /** One step of the rebalancing loop, for a node that is one entry short. The sibling is the high one unless the node
      is the last child. */
  method RebalanceStep(m: map<Addr, Node>, h: nat, last: Ref, path: seq<Entry>, n: nat,
                       ghost t: Tree, ghost target: seq<Range>, ghost idx: int)
    returns (done: bool, m': map<Addr, Node>, last': Ref, path': seq<Entry>, ghost t': Tree)
    requires Lean(m, t, h, path, n, target, idx) && 0 < n && last == LastOf(t) && AscendingStarts(target)
    requires Arity(Sub(t, Steps(path)[..n])) == MIN_ENTRIES - 1
    ensures Raised(m', t', h, path', n - 1, target, idx, last', t)
    ensures done ==> Arity(Sub(t', Steps(path')[..n - 1])) >= if n > 1 then MIN_ENTRIES else 2
  {
    hide Lean, Raised, Stands, FillAround, Follows, Filled, Addrs, Distinct, Sub, OnPath, LastOf;
    LeanParent(m, t, h, path, n, target, idx);
    SiblingFacts(m, t, h, path, n);
    var parent, slot := path[n - 1].node, path[n - 1].slot;
    path' := path;
    if slot + 1 < FANOUT && InnerHasEntry(m[parent].keys, slot + 1) {
      var high := m[parent].children[slot + 1];
      if HasEntry(m[high], MIN_ENTRIES) {
        done := true;
        m', last', t' := StepBorrowHigh(m, h, last, path, n, t, target, idx);
      } else {
        done := false;
        m', last', t' := StepMergeHigh(m, h, last, path, n, t, target, idx);
      }
    } else {
      var low := m[parent].children[slot - 1];
      if HasEntry(m[low], MIN_ENTRIES) {
        done := true;
        m', last', path', t' := StepBorrowLow(m, h, last, path, n, t, target, idx);
      } else {
        done := false;
        m', last', path', t' := StepMergeLow(m, h, last, path, n, t, target, idx);
      }
    }
  }

  /** What the tests on the parent and on the siblings tell. */
  lemma SiblingFacts(m: map<Addr, Node>, t: Tree, h: nat, path: seq<Entry>, n: nat)
    requires Parent(m, t, h, path, n)
    ensures var f, i, parent := Sub(t, Steps(path)[..n - 1]), path[n - 1].slot, path[n - 1].node;
            && f.Fork? && 0 <= i < |f.kids| <= FANOUT && f.kids[i] == Sub(t, Steps(path)[..n])
            && parent in m && m[parent].InnerNode? && |m[parent].keys| == |m[parent].children| == FANOUT
            && (i + 1 < FANOUT ==> (InnerHasEntry(m[parent].keys, i + 1) <==> i + 1 < |f.kids|))
            && (i + 1 < |f.kids| ==> SiblingFact(m, m[parent].children[i + 1], f.kids[i + 1]))
            && (i + 1 == |f.kids| ==> i > 0 && SiblingFact(m, m[parent].children[i - 1], f.kids[i - 1]))
  {
    hide Distinct, Addrs, Follows, FillAround;
    var f, i := Sub(t, Steps(path)[..n - 1]), path[n - 1].slot;
    forall j | 0 <= j < |f.kids| && j != i
      ensures j < |m[f.addr].children| && SiblingFact(m, m[f.addr].children[j], f.kids[j])
    {
      assert KidAddrs(f.kids)[j] == f.kids[j].addr;
      FilledKids(f.kids[j]);
      EntryMeans(m, f.kids[j], MIN_ENTRIES);
    }
  }

  ghost predicate SiblingFact(m: map<Addr, Node>, a: Addr, s: Tree)
  {
    && a == s.addr && a in m && MIN_ENTRIES <= Arity(s)
    && (if m[a].LeafNode? then |m[a].ranges| == FANOUT else |m[a].keys| == FANOUT)
    && (HasEntry(m[a], MIN_ENTRIES) <==> MIN_ENTRIES < Arity(s))
  }

  /** Rebalances from the leaf up, while nodes are one entry short. */
  method Rebalance(m0: map<Addr, Node>, h: nat, last0: Ref, path0: seq<Entry>,
                   ghost t0: Tree, ghost target: seq<Range>, ghost idx: int)
    returns (m: map<Addr, Node>, last: Ref, path: seq<Entry>, ghost t: Tree, ghost n: nat)
    requires 1 <= h && Lean(m0, t0, h, path0, h - 1, target, idx) && last0 == LastOf(t0) && AscendingStarts(target)
    ensures Raised(m, t, h, path, n, target, idx, last, t0)
    ensures n == 0 || Arity(Sub(t, Steps(path)[..n])) >= MIN_ENTRIES
  {
    hide Stands, FillAround, Follows, Filled, Addrs, Distinct, Sub, OnPath, LastOf, Rank, Flat, KidsFilled;
    m, last, path, t := m0, last0, path0, t0;
    n := h - 1;
    var level := h - 1;
    while level != 0
      invariant n == level && 0 <= level < h && Raised(m, t, h, path, level, target, idx, last, t0)
    {
      NodeHere(m, t, h, path, level, target, idx);
      if HasEntry(m[path[level].node], MIN_ENTRIES - 1) {
        return;
      }
      var done;
      done, m, last, path, t := RebalanceStep(m, h, last, path, level, t, target, idx);
      level := level - 1;
      n := level;
      if done {
        return;
      }
    }
  }

  lemma NodeHere(m: map<Addr, Node>, t: Tree, h: nat, path: seq<Entry>, n: nat, target: seq<Range>, idx: int)
    requires Lean(m, t, h, path, n, target, idx) && n > 0
    ensures var s := Sub(t, Steps(path)[..n]);
            && path[n].node == s.addr && s.addr in m
            && (if m[s.addr].LeafNode? then |m[s.addr].ranges| == FANOUT else |m[s.addr].keys| == FANOUT)
            && (HasEntry(m[s.addr], MIN_ENTRIES - 1) <==> MIN_ENTRIES <= Arity(s))
  {
    hide Distinct, Addrs, FillAround;
    FollowsSteps(t, path);
    SubHolds(m, t, Steps(path)[..n]);
    EntryMeans(m, Sub(t, Steps(path)[..n]), MIN_ENTRIES - 1);
  }

  // ----- the leaf -----

  /** Takes the range that the path addresses out of its leaf; the path then addresses the one before it. */
  method RemoveFromLeaf(m0: map<Addr, Node>, h: nat, last0: Ref, path0: seq<Entry>, ghost t0: Tree)
    returns (m: map<Addr, Node>, last: Ref, path: seq<Entry>, ghost t: Tree)
    requires Stands(m0, t0, h) && m0.Keys == Addrs(t0) && FilledRoot(t0) && last0 == LastOf(t0) && |Flat(t0)| >= 2
    requires |path0| == h && Tracks(t0, path0) && path0[h - 1].slot >= 0
    ensures 0 <= Index(t0, path0) < |Flat(t0)|
    ensures Raised(m, t, h, path, h - 1, Remove(Flat(t0), Index(t0, path0)), Index(t0, path0) - 1, last, t0)
  {
    hide Distinct, Addrs, AddrsAll, HasHeight, FillAround, Flat, First, Left, Right, Plug, LastLeaf, FirstLeaf,
         Rightmost;
    var leaf, slot := path0[h - 1].node, path0[h - 1].slot;
    ghost var p := Steps(path0);
    LeafHere(m0, t0, h, path0);
    ghost var rs := Sub(t0, p).rs;
    ghost var s := Leaf(leaf, Remove(rs, slot));
    var slots, _ := RemoveRangeAt(m0[leaf].ranges, slot, rs);
    m := m0[leaf := LeafNode(slots)];
    last := if last0.leaf == leaf then Ref(leaf, last0.slot - 1) else last0;
    if slot == 0 {
      LeafFirst(s, slots);
      m := UpdateSeparator(m, path0, slots[0].start, m0, t0, s);
    } else {
      SameFirst(rs, slot, leaf);
      LeafAddrs(t0, path0, s);
      Graft(m0, m, t0, p, s);
    }
    path := path0[h - 1 := Entry(leaf, slot - 1)];
    t := Plug(t0, p, s);
    LeafRemoved(m0, m, t0, h, path0, path, s, last0, last);
  }

  lemma SameFirst(rs: seq<Range>, i: nat, a: Addr)
    requires 0 < i < |rs|
    ensures First(Leaf(a, Remove(rs, i))) == First(Leaf(a, rs))
  {
  }

  lemma LeafFirst(s: Tree, slots: seq<Range>)
    requires s.Leaf? && LeafHolds(slots, s.rs)
    ensures slots[0].start == First(s) && (s.rs != [] ==> First(s) < UINT64_MAX)
  {
  }

  lemma LeafHere(m: map<Addr, Node>, t: Tree, h: nat, path: seq<Entry>)
    requires Stands(m, t, h) && FilledRoot(t) && |path| == h && Tracks(t, path) && |Flat(t)| >= 2
    ensures var s := Sub(t, Steps(path));
            && path[h - 1].node == s.addr && s.addr in m && m[s.addr].LeafNode? && LeafHolds(m[s.addr].ranges, s.rs)
            && 2 <= |s.rs| <= FANOUT && (h > 1 ==> MIN_ENTRIES <= |s.rs|)
            && FillAround(t, Steps(path), 2) && Distinct(t)
            && |Left(t, Steps(path))| + |s.rs| <= |Flat(t)|
  {
    var p := Steps(path);
    TrailTaken(t, path, h - 1);
    assert p[..h - 1] == p;
    LeafAt(m, t, h, p);
    FilledRootSplits(t, p);
    FlatSplit(t, p);
    if p == [] {
      assert Sub(t, p) == t;
    }
  }

  lemma RemoveInside<T>(a: seq<T>, b: seq<T>, c: seq<T>, i: nat)
    requires i < |b|
    ensures a + Remove(b, i) + c == Remove(a + b + c, |a| + i)
  {
  }

  lemma LeafRemoved(m0: map<Addr, Node>, m: map<Addr, Node>, t0: Tree, h: nat, path0: seq<Entry>, path: seq<Entry>,
                    s: Tree, last0: Ref, last: Ref)
    requires Stands(m0, t0, h) && m0.Keys == Addrs(t0) && FilledRoot(t0) && last0 == LastOf(t0) && |Flat(t0)| >= 2
    requires |path0| == h && Tracks(t0, path0) && path0[h - 1].slot >= 0
    requires var slot := path0[h - 1].slot;
             && s == Leaf(path0[h - 1].node, Remove(Sub(t0, Steps(path0)).rs, slot))
             && path == path0[h - 1 := Entry(s.addr, slot - 1)] && s.addr == Sub(t0, Steps(path0)).addr
    requires Holds(m, Plug(t0, Steps(path0), s)) && m.Keys == m0.Keys
    requires last == if last0.leaf == s.addr then Ref(s.addr, last0.slot - 1) else last0
    ensures 0 <= Index(t0, path0) < |Flat(t0)|
    ensures Raised(m, Plug(t0, Steps(path0), s), h, path, h - 1, Remove(Flat(t0), Index(t0, path0)),
                   Index(t0, path0) - 1, last, t0)
  {
    hide Distinct, Addrs, AddrsAll, HasHeight, FillAround, Flat, First, Left, Right, Plug, LastLeaf, FirstLeaf,
         Rightmost, Holds, Sub, OnPath, Follows, Rank, Passes, Stands, Tracks, LastOf;
    LeafHere(m0, t0, h, path0);
    var p := Steps(path0);
    TracksPath(t0, path0);
    LeafSwapped(m0, m, t0, h, p, s);
    RemovedLast(m0, m, t0, h, p, s, last0, last);
    RemovedList(t0, path0, s);
    RemovedRank(m0, m, t0, h, path0, path, s);
  }

  lemma TracksPath(t: Tree, path: seq<Entry>)
    requires Tracks(t, path)
    ensures OnPath(t, Steps(path)) && Sub(t, Steps(path)).Leaf? && path[|path| - 1].slot < |Sub(t, Steps(path)).rs|
    ensures Steps(path)[..|path| - 1] == Steps(path)
  {
  }

  /** The cached pointer follows the range that it refers to. */
  lemma RemovedLast(m0: map<Addr, Node>, m: map<Addr, Node>, t0: Tree, h: nat, p: seq<int>, s: Tree, last0: Ref,
                    last: Ref)
    requires Stands(m0, t0, h) && OnPath(t0, p) && Sub(t0, p).Leaf? && s.Leaf? && s.addr == Sub(t0, p).addr
    requires Holds(m, Plug(t0, p, s)) && FillAround(t0, p, 2) && |s.rs| == |Sub(t0, p).rs| - 1 && last0 == LastOf(t0)
    requires last == if last0.leaf == s.addr then Ref(s.addr, last0.slot - 1) else last0
    ensures last == LastOf(Plug(t0, p, s))
  {
    hide Addrs, AddrsAll, HasHeight, FillAround, Flat, First, Left, Right, Plug, LastLeaf, FirstLeaf, Rightmost, Holds,
         Sub, OnPath;
    LeafSwapped(m0, m, t0, h, p, s);
    LastLeafOnPath(t0, p);
  }

  lemma RemovedList(t0: Tree, path0: seq<Entry>, s: Tree)
    requires Tracks(t0, path0) && path0[|path0| - 1].slot >= 0 && s.Leaf?
    requires s.rs == Remove(Sub(t0, Steps(path0)).rs, path0[|path0| - 1].slot)
    ensures 0 <= Index(t0, path0) < |Flat(t0)|
    ensures var p := Steps(path0); Left(t0, p) + s.rs + Right(t0, p) == Remove(Flat(t0), Index(t0, path0))
  {
    hide Flat, Left, Right, Sub, OnPath;
    var p := Steps(path0);
    FlatSplit(t0, p);
    LeafFlat(Sub(t0, p));
    RemoveInside(Left(t0, p), Sub(t0, p).rs, Right(t0, p), path0[|path0| - 1].slot);
  }

  /** The path goes on to address the range before the one removed. */
  lemma RemovedRank(m0: map<Addr, Node>, m: map<Addr, Node>, t0: Tree, h: nat, path0: seq<Entry>, path: seq<Entry>,
                    s: Tree)
    requires Stands(m0, t0, h) && |path0| == h && Tracks(t0, path0) && path0[h - 1].slot >= 0
    requires s.Leaf? && s.addr == Sub(t0, Steps(path0)).addr && |s.rs| == |Sub(t0, Steps(path0)).rs| - 1
    requires path == path0[h - 1 := Entry(s.addr, path0[h - 1].slot - 1)]
    requires Holds(m, Plug(t0, Steps(path0), s)) && FillAround(t0, Steps(path0), 2)
    ensures var t := Plug(t0, Steps(path0), s);
            Steps(path) == Steps(path0) && Follows(t, path) && Rank(t, path) == Index(t0, path0) - 1
  {
    hide Distinct, Addrs, AddrsAll, HasHeight, FillAround, Flat, First, Left, Right, Plug, LastLeaf, FirstLeaf,
         Rightmost, Holds, Sub, OnPath, Follows, Rank, Passes;
    var p, slot := Steps(path0), path0[h - 1].slot;
    LeafSwapped(m0, m, t0, h, p, s);
    var t := Plug(t0, p, s);
    TrailHead2(t0, path0, t, s);
    assert path == path0[..h - 1] + [Entry(s.addr, slot - 1)];
    LeafFollows(s, slot - 1);
    FollowsAbove(t, path0[..h - 1], p, [Entry(s.addr, slot - 1)]);
  }

  lemma LeafFlat(s: Tree)
    requires s.Leaf?
    ensures Flat(s) == s.rs
  {
  }

  lemma LeafFollows(s: Tree, x: int)
    requires s.Leaf? && -1 <= x < |s.rs|
    ensures Follows(s, [Entry(s.addr, x)]) && Rank(s, [Entry(s.addr, x)]) == x
  {
  }

  lemma TrailHead2(t0: Tree, path0: seq<Entry>, t: Tree, s: Tree)
    requires Tracks(t0, path0) && t == Plug(t0, Steps(path0), s)
    ensures Trail(t, path0[..|path0| - 1], Steps(path0))
    ensures Steps(path0)[..|path0| - 1] == Steps(path0)
  {
    var p := Steps(path0);
    assert p[..|p|] == p;
    TrailTaken(t0, path0, |path0| - 1);
    TrailPlug(t0, path0[..|path0| - 1], p, s);
  }

  // ----- the root -----

  lemma ShrunkRoot(m: map<Addr, Node>, t: Tree, h: nat, path: seq<Entry>, n: nat, target: seq<Range>, idx: int)
    requires Lean(m, t, h, path, n, target, idx) && t.Fork? && |t.kids| == 1
    ensures var t' := t.kids[0];
            && Stands(m - {t.addr}, t', h - 1) && (m - {t.addr}).Keys == Addrs(t') && FilledRoot(t')
            && Flat(t') == target
            && Follows(t', path[1..]) && Rank(t', path[1..]) == idx && Addrs(t') <= Addrs(t)
            && FirstLeaf(t') == FirstLeaf(t) && LastLeaf(t') == LastLeaf(t)
  {
    var t' := t.kids[0];
    assert |Steps(path)[..n]| == n && n == 0;
    assert Steps(path)[..0] == [];
    FilledKids(t');
    assert t.kids == [t'];
    FlatAllOne(t');
    assert t.kids[..0] == [];
    assert AddrsAll(t.kids) == Addrs(t') && t.addr !in Addrs(t');
    HoldsFrame(m, m - {t.addr}, t');
  }

  lemma LeanRoot(m: map<Addr, Node>, t: Tree, h: nat, path: seq<Entry>, n: nat, target: seq<Range>, idx: int)
    requires Lean(m, t, h, path, n, target, idx) && (n == 0 || Arity(Sub(t, Steps(path)[..n])) >= MIN_ENTRIES)
    ensures t.addr in m && (h == 1 ==> FilledRoot(t))
    ensures h > 1 ==>
              && t.Fork? && m[t.addr].InnerNode? && |m[t.addr].keys| == |m[t.addr].children| == FANOUT
              && (if InnerHasEntry(m[t.addr].keys, 1) then FilledRoot(t)
                  else |t.kids| == 1 && m[t.addr].children[0] == t.kids[0].addr)
  {
    EntryMeans(m, t, 1);
    if n == 0 {
      assert Steps(path)[..0] == [];
    }
    if h == 1 || Arity(t) >= 2 {
      LeanFilled(m, t, h, path, n, target, idx);
    } else {
      assert KidAddrs(t.kids)[0] == t.kids[0].addr;
      assert |Steps(path)[..n]| == n;
    }
  }

  /** Removes the range that the path addresses; the path then addresses the one before it. */
  method DeleteIn(m0: map<Addr, Node>, root0: Addr, h0: nat, last0: Ref, path0: seq<Entry>, ghost t0: Tree)
    returns (m: map<Addr, Node>, root: Addr, h: nat, last: Ref, path: seq<Entry>, ghost t: Tree)
    requires Stands(m0, t0, h0) && m0.Keys == Addrs(t0) && FilledRoot(t0) && AscendingStarts(Flat(t0))
             && |Flat(t0)| >= 2
    requires t0.addr == root0 && last0 == LastOf(t0)
    requires |path0| == h0 && Tracks(t0, path0) && path0[h0 - 1].slot >= 0
    ensures 0 <= Index(t0, path0) < |Flat(t0)|
    ensures Stands(m, t, h) && m.Keys == Addrs(t) && FilledRoot(t) && Flat(t) == Remove(Flat(t0), Index(t0, path0))
    ensures t.addr == root && FirstLeaf(t).addr == FirstLeaf(t0).addr && last == LastOf(t) && m.Keys <= m0.Keys
    ensures |path| == h && Tracks(t, path) && Index(t, path) == Index(t0, path0) - 1
  {
    hide Distinct, Addrs, AddrsAll, HasHeight, FillAround, Flat, First, Left, Right, Plug, LastLeaf, FirstLeaf, Holds,
         Sub, OnPath, Follows, Rank, Filled, FilledRoot, KidsFilled, Tracks, Index;
    ghost var i := Index(t0, path0);
    m, last, path, t := RemoveFromLeaf(m0, h0, last0, path0, t0);
    ghost var target := Remove(Flat(t0), i);
    AscendingRemove(Flat(t0), i);
    ghost var n;
    m, last, path, t, n := Rebalance(m, h0, last, path, t, target, i - 1);
    root, h := root0, h0;
    LeanRoot(m, t, h, path, n, target, i - 1);
    if h > 1 && !InnerHasEntry(m[root].keys, 1) {
      ShrunkRoot(m, t, h, path, n, target, i - 1);
      var child := m[root].children[0];
      m := m - {root};
      root, h, path := child, h - 1, path[1..];
      t := t.kids[0];
    }
    FollowsSteps(t, path);
  }

  lemma AscendingRemove(rs: seq<Range>, i: nat)
    requires AscendingStarts(rs) && i < |rs|
    ensures AscendingStarts(Remove(rs, i))
  {
  }
}
