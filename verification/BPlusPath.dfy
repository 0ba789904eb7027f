/** Paths from the root to a range, the search that finds them, and the step to the preceding leaf. Nodes live in a
    memory that maps addresses to nodes: allocating adds an address, freeing removes it, and every edit is made in place
    at an address. */
module BPlusPaths {
  import opened Basics
  import opened Ranges
  import opened BPlusNodes
  import opened BPlusTrees
  import opened BPlusOrders

  /** A pointer to a range: a leaf and a slot of it. */
  datatype Ref = Ref(leaf: Addr, slot: int)

  /** The child chosen at each level above the leaf. */
  ghost function Steps(path: seq<Entry>): (p: seq<int>)
    requires path != []
    ensures |p| == |path| - 1
  {
    seq(|path| - 1, i requires 0 <= i < |path| - 1 => path[i].slot)
  }

  /** The path follows the nodes of the tree down to a slot of a leaf, or to -1. */
  ghost predicate Tracks(t: Tree, path: seq<Entry>)
  {
    && path != []
    && OnPath(t, Steps(path))
    && Sub(t, Steps(path)).Leaf?
    && -1 <= path[|path| - 1].slot < |Sub(t, Steps(path)).rs|
    && Passes(t, path, |path|)
  }

  ghost predicate Passes(t: Tree, path: seq<Entry>, n: nat)
    requires path != [] && n <= |path|
  {
    forall k :: 0 <= k < n ==> OnPath(t, Steps(path)[..k]) && path[k].node == Sub(t, Steps(path)[..k]).addr
  }

  /** The index of the range that the path addresses. */
  ghost function Index(t: Tree, path: seq<Entry>): int
    requires Tracks(t, path)
  {
    |Left(t, Steps(path))| + path[|path| - 1].slot
  }

  ghost function LastOf(t: Tree): Ref
  {
    Ref(LastLeaf(t).addr, Arity(LastLeaf(t)) - 1)
  }

  /** `i` ranges start at or before `x`, and they come first. */
  ghost predicate Divides(rs: seq<Range>, i: int, x: nat)
  {
    0 <= i <= |rs| && AllUpTo(rs[..i], x) && AllAbove(rs[i..], x)
  }

  lemma DividesInside(l: seq<Range>, m: seq<Range>, r: seq<Range>, c: nat, x: nat)
    requires c <= |m| && AllUpTo(l, x) && AllAbove(r, x)
    requires AllUpTo(m[..c], x) && AllAbove(m[c..], x)
    ensures Divides(l + m + r, |l| + c, x)
  {
    var f := l + m + r;
    assert f[..|l| + c] == l + m[..c];
    assert f[|l| + c..] == m[c..] + r;
  }

  /** What a search relies on: memory holds a filled tree whose ranges ascend. */
  ghost predicate Searchable(m: map<Addr, Node>, t: Tree, h: nat)
  {
    Holds(m, t) && HasHeight(t, h) && FilledRoot(t) && AscendingStarts(Flat(t))
  }

  /** Everything left of the path starts at or before `x`, everything right of it starts after. */
  ghost predicate Narrowed(t: Tree, p: seq<int>, x: nat)
  {
    && OnPath(t, p)
    && AllUpTo(Left(t, p), x) && AllAbove(Right(t, p), x)
    && (AllZero(p) || First(Sub(t, p)) <= x)
  }

  ghost predicate Trail(t: Tree, trail: seq<Entry>, p: seq<int>)
  {
    && |trail| == |p|
    && (forall k :: 0 <= k < |p| ==> trail[k].slot == p[k])
    && (forall k :: 0 <= k < |p| ==> OnPath(t, p[..k]) && trail[k].node == Sub(t, p[..k]).addr)
  }

  lemma TrailGrows(t: Tree, trail: seq<Entry>, p: seq<int>, slot: int)
    requires Trail(t, trail, p) && OnPath(t, p)
    ensures Trail(t, trail + [Entry(Sub(t, p).addr, slot)], p + [slot])
  {
    var p' := p + [slot];
    assert p'[..|p|] == p;
    assert forall k :: 0 <= k < |p| ==> p'[..k] == p[..k];
  }

  lemma TrailTracks(t: Tree, trail: seq<Entry>, p: seq<int>, slot: int)
    requires Trail(t, trail, p) && OnPath(t, p) && Sub(t, p).Leaf? && -1 <= slot < |Sub(t, p).rs|
    ensures var path := trail + [Entry(Sub(t, p).addr, slot)];
            Steps(path) == p && Tracks(t, path)
  {
    var path := trail + [Entry(Sub(t, p).addr, slot)];
    assert Steps(path) == p;
    assert p[..|p|] == p;
  }

  lemma TrailPlug(t: Tree, trail: seq<Entry>, q: seq<int>, s: Tree)
    requires Trail(t, trail, q) && OnPath(t, q)
    ensures Trail(Plug(t, q, s), trail, q)
  {
    forall k | 0 <= k < |q|
      ensures OnPath(Plug(t, q, s), q[..k]) && trail[k].node == Sub(Plug(t, q, s), q[..k]).addr
    {
      SubPlug(t, q, s, k);
    }
  }

  lemma TrailShorter(t: Tree, trail: seq<Entry>, q: seq<int>, n: nat)
    requires Trail(t, trail, q) && n <= |q|
    ensures Trail(t, trail[..n], q[..n])
  {
    assert forall k :: 0 <= k < n ==> q[..n][..k] == q[..k];
  }

  method DescendIn(m: map<Addr, Node>, root: Addr, h: nat, x: nat, ghost t: Tree) returns (path: seq<Entry>)
    requires Searchable(m, t, h) && t.addr == root && x < UINT64_MAX
    ensures |path| == h && Tracks(t, path)
    ensures Divides(Flat(t), Index(t, path) + 1, x)
    ensures path[h - 1].slot < 0 ==> AllZero(Steps(path))
  {
    hide Flat, Left, Right, Sub, OnPath, Divides, AllZero, Holds, HasHeight, Trail, LeafCountLe, KeysCountLe, Distinct,
         AllUpTo, AllAbove, First, FilledRoot, AscendingStarts;
    var node, level := root, 0;
    path := [];
    ghost var p: seq<int> := [];
    DescentStart(t, h, x);
    while level + 1 < h
      invariant level < h && |p| == level == |path| && Trail(t, path, p)
      invariant Narrowed(t, p, x) && node == Sub(t, p).addr
    {
      ChildFound(m, t, h, p, x);
      var slot := KeysCountLe(m[node].keys, x);
      TrailGrows(t, path, p, slot);
      path := path + [Entry(node, slot)];
      node := m[node].children[slot];
      p := p + [slot];
      level := level + 1;
    }
    RangeFound(m, t, h, p, x);
    var count: int := LeafCountLe(m[node].ranges, x);
    TrailTracks(t, path, p, count - 1);
    path := path + [Entry(node, count - 1)];
  }

  lemma DescentStart(t: Tree, h: nat, x: nat)
    requires HasHeight(t, h)
    ensures h >= 1 && Trail(t, [], []) && Narrowed(t, [], x) && Sub(t, []) == t
  {
  }

  lemma InnerAt(m: map<Addr, Node>, t: Tree, h: nat, p: seq<int>)
    requires Holds(m, t) && HasHeight(t, h) && OnPath(t, p) && |p| + 1 < h
    ensures var s := Sub(t, p);
            && s.Fork? && s.addr in m && m[s.addr].InnerNode?
            && InnerHolds(m[s.addr].keys, m[s.addr].children, Mins(s.kids), KidAddrs(s.kids))
  {
    SubHeight(t, p, h);
    SubHolds(m, t, p);
  }

  lemma LeafAt(m: map<Addr, Node>, t: Tree, h: nat, p: seq<int>)
    requires Holds(m, t) && HasHeight(t, h) && OnPath(t, p) && |p| + 1 == h
    ensures var s := Sub(t, p);
            s.Leaf? && s.addr in m && m[s.addr].LeafNode? && LeafHolds(m[s.addr].ranges, s.rs)
  {
    SubHeight(t, p, h);
    SubHolds(m, t, p);
  }

  lemma ChildFound(m: map<Addr, Node>, t: Tree, h: nat, p: seq<int>, x: nat)
    requires Searchable(m, t, h) && |p| + 1 < h && x < UINT64_MAX && Narrowed(t, p, x)
    ensures var s := Sub(t, p);
            && s.Fork? && s.addr in m && m[s.addr].InnerNode?
            && |m[s.addr].keys| == |m[s.addr].children| == FANOUT
            && var n := KeysCountLe(m[s.addr].keys, x);
            && n < FANOUT && Narrowed(t, p + [n], x) && m[s.addr].children[n] == Sub(t, p + [n]).addr
  {
    InnerAt(m, t, h, p);
    ForkFacts(t, p, h);
    var s := Sub(t, p);
    var n := KeysCountLe(m[s.addr].keys, x);
    MinsAscend(s.kids, h - |p| - 1);
    KeySearch(m[s.addr].keys, m[s.addr].children, Mins(s.kids), KidAddrs(s.kids), x);
    assert KidAddrs(s.kids)[n] == s.kids[n].addr;
    NarrowDown(t, h, p, n, x) by {
      assert Mins(s.kids)[n] == First(s.kids[n]);
      assert n + 1 < |s.kids| ==> Mins(s.kids)[n + 1] == First(s.kids[n + 1]);
    }
    Deeper(t, p, n);
  }

  lemma NarrowDown(t: Tree, h: nat, p: seq<int>, n: nat, x: nat)
    requires Narrowed(t, p, x) && Sub(t, p).Fork? && n < |Sub(t, p).kids| && |p| + 1 < h
    requires AllFilled(Sub(t, p).kids, h - |p| - 1) && AscendingStarts(FlatAll(Sub(t, p).kids))
    requires n > 0 ==> First(Sub(t, p).kids[n]) <= x
    requires n + 1 < |Sub(t, p).kids| ==> x < First(Sub(t, p).kids[n + 1])
    ensures Narrowed(t, p + [n], x)
  {
    var s := Sub(t, p);
    Deeper(t, p, n);
    StepDown(s.kids, h - |p| - 1, n, x);
    AllUpToConcat(Left(t, p), FlatAll(s.kids[..n]), x);
    AllAboveConcat(FlatAll(s.kids[n + 1..]), Right(t, p), x);
    assert n == 0 && !AllZero(p) ==> First(s.kids[0]) == First(s);
  }

  lemma RangeFound(m: map<Addr, Node>, t: Tree, h: nat, p: seq<int>, x: nat)
    requires Searchable(m, t, h) && |p| + 1 == h && x < UINT64_MAX && Narrowed(t, p, x)
    ensures var s := Sub(t, p);
            && s.Leaf? && s.addr in m && m[s.addr].LeafNode? && |m[s.addr].ranges| == FANOUT
            && var c := LeafCountLe(m[s.addr].ranges, x);
            && c <= |s.rs| && Divides(Flat(t), |Left(t, p)| + c, x)
            && (c == 0 ==> AllZero(p))
  {
    hide Left, Right, Sub, OnPath, Holds, HasHeight, Distinct, AllZero, Divides;
    LeafAt(m, t, h, p);
    LeafFacts(t, p, h);
    var s := Sub(t, p);
    LeafSearch(m[s.addr].ranges, s.rs, x);
    FlatSplit(t, p);
    DividesInside(Left(t, p), s.rs, Right(t, p), LeafCountLe(m[s.addr].ranges, x), x);
  }

  // ----- the preceding leaf -----

  /** What is listed up to the end of the subtree at `p` has length `n`. */
  ghost predicate EndsAt(t: Tree, p: seq<int>, n: nat)
  {
    OnPath(t, p) && |Left(t, p)| + |Flat(Sub(t, p))| == n
  }

  /** Moves the path to the last range of the leaf preceding the one it points to. */
  method PrevLeafIn(m: map<Addr, Node>, h: nat, path: seq<Entry>, ghost t: Tree) returns (r: seq<Entry>)
    requires Searchable(m, t, h) && |path| == h && Tracks(t, path) && !AllZero(Steps(path))
    ensures |r| == h && Tracks(t, r)
    ensures Index(t, r) == |Left(t, Steps(path))| - 1 && r[h - 1].slot >= 0
  {
    ghost var p := Steps(path);
    var level := h - 2;
    assert p[0..] == p;
    while path[level].slot == 0
      invariant 0 <= level < h - 1 && AllZero(p[level + 1..])
      decreases level
    {
      assert p[level..] == [p[level]] + p[level + 1..];
      level := level - 1;
    }
    StepBack(t, h, p, level);
    var slot := path[level].slot - 1;
    var node := path[level].node;
    ghost var q := p[..level];
    InnerAt(m, t, h, q);
    TrailTaken(t, path, level);
    r := path[..level];
    TrailGrows(t, r, q, slot);
    r := r + [Entry(node, slot)];
    assert KidAddrs(Sub(t, q).kids)[slot] == Sub(t, q).kids[slot].addr;
    Deeper(t, q, slot);
    node := m[node].children[slot];
    q := q + [slot];
    level := level + 1;
    while level < h - 1
      invariant level < h && |q| == level && Trail(t, r, q) && EndsAt(t, q, |Left(t, p)|)
      invariant node == Sub(t, q).addr
    {
      LastChild(m, t, h, q);
      var s := KeysCountLe(m[node].keys, UINT64_MAX - 1);
      TrailGrows(t, r, q, s);
      r := r + [Entry(node, s)];
      node := m[node].children[s];
      q := q + [s];
      level := level + 1;
    }
    LastRange(m, t, h, q);
    var c: int := LeafCountLe(m[node].ranges, UINT64_MAX - 1);
    TrailTracks(t, r, q, c - 1);
    r := r + [Entry(node, c - 1)];
  }

  lemma TrailTaken(t: Tree, path: seq<Entry>, n: nat)
    requires Tracks(t, path) && n < |path|
    ensures Trail(t, path[..n], Steps(path)[..n])
    ensures OnPath(t, Steps(path)[..n]) && path[n].node == Sub(t, Steps(path)[..n]).addr
  {
    var p := Steps(path);
    assert forall k :: 0 <= k < n ==> p[..n][..k] == p[..k];
  }

  lemma StepBack(t: Tree, h: nat, p: seq<int>, j: nat)
    requires HasHeight(t, h) && OnPath(t, p) && j < |p| < h && p[j] != 0 && AllZero(p[j + 1..])
    ensures OnPath(t, p[..j]) && Sub(t, p[..j]).Fork? && 0 < p[j] < |Sub(t, p[..j]).kids|
    ensures EndsAt(t, p[..j] + [p[j] - 1], |Left(t, p)|)
  {
    var up, i, down := p[..j], p[j], p[j + 1..];
    assert p == up + ([i] + down) && ([i] + down)[1..] == down;
    OnPathPrefix(t, up, [i] + down);
    PathConcat(t, up, [i] + down);
    var s := Sub(t, up);
    ZeroLeft(s.kids[i], down);
    Deeper(t, up, i - 1);
    KidOffset(s.kids, i - 1);
  }

  lemma {:induction false} ZeroLeft(t: Tree, p: seq<int>)
    requires OnPath(t, p) && AllZero(p)
    ensures Left(t, p) == []
    decreases |p|
  {
    if p != [] {
      assert t.kids[..0] == [];
      ZeroLeft(t.kids[0], p[1..]);
    }
  }

  lemma LastChild(m: map<Addr, Node>, t: Tree, h: nat, p: seq<int>)
    requires Searchable(m, t, h) && OnPath(t, p) && |p| + 1 < h
    ensures var s := Sub(t, p);
            && s.Fork? && s.addr in m && m[s.addr].InnerNode?
            && |m[s.addr].keys| == |m[s.addr].children| == FANOUT
            && var n := KeysCountLe(m[s.addr].keys, UINT64_MAX - 1);
            && n + 1 == |s.kids| <= FANOUT && OnPath(t, p + [n]) && m[s.addr].children[n] == Sub(t, p + [n]).addr
            && |Left(t, p + [n])| + |Flat(Sub(t, p + [n]))| == |Left(t, p)| + |Flat(s)|
  {
    InnerAt(m, t, h, p);
    ForkFacts(t, p, h);
    var s := Sub(t, p);
    var n := KeysCountLe(m[s.addr].keys, UINT64_MAX - 1);
    MinsAscend(s.kids, h - |p| - 1);
    KeySearch(m[s.addr].keys, m[s.addr].children, Mins(s.kids), KidAddrs(s.kids), UINT64_MAX - 1);
    assert forall i :: 1 <= i < |s.kids| ==> Mins(s.kids)[i] <= UINT64_MAX - 1;
    assert KidAddrs(s.kids)[n] == s.kids[n].addr;
    Deeper(t, p, n);
    KidOffset(s.kids, n);
    assert s.kids[..n + 1] == s.kids;
  }

  lemma LastRange(m: map<Addr, Node>, t: Tree, h: nat, p: seq<int>)
    requires Searchable(m, t, h) && OnPath(t, p) && |p| + 1 == h
    ensures var s := Sub(t, p);
            && s.Leaf? && s.addr in m && m[s.addr].LeafNode? && |m[s.addr].ranges| == FANOUT
            && LeafCountLe(m[s.addr].ranges, UINT64_MAX - 1) == |s.rs| >= 1
  {
    LeafAt(m, t, h, p);
    LeafFacts(t, p, h);
    var s := Sub(t, p);
    LeafSearch(m[s.addr].ranges, s.rs, UINT64_MAX - 1);
    var n := LeafCountLe(m[s.addr].ranges, UINT64_MAX - 1);
    assert forall i :: 0 <= i < |s.rs| ==> s.rs[i].start <= UINT64_MAX - 1;
  }

  // ----- paths seen from a node on the way -----

  lemma {:induction false} FollowsSteps(t: Tree, path: seq<Entry>)
    requires Follows(t, path)
    ensures Tracks(t, path) && Index(t, path) == Rank(t, path)
    decreases |path|
  {
    if t.Fork? {
      FollowsSteps(t.kids[path[0].slot], path[1..]);
      var p := Steps(path);
      assert p[1..] == Steps(path[1..]);
      forall k | 0 <= k < |path| ensures OnPath(t, p[..k]) && path[k].node == Sub(t, p[..k]).addr {
        if k > 0 {
          assert p[..k][1..] == p[1..][..k - 1];
          assert path[1..][k - 1] == path[k];
        }
      }
    } else {
      assert Steps(path) == [];
    }
  }

  lemma {:induction false} TracksFollows(t: Tree, path: seq<Entry>)
    requires Tracks(t, path)
    ensures Follows(t, path)
    decreases |path|
  {
    var p := Steps(path);
    assert p[..0] == [];
    if |path| > 1 {
      assert p[1..] == Steps(path[1..]);
      var k := t.kids[p[0]];
      forall n | 0 <= n < |path| - 1 ensures OnPath(k, p[1..][..n]) && path[1..][n].node == Sub(k, p[1..][..n]).addr {
        assert p[..n + 1][1..] == p[1..][..n];
        assert path[n + 1] == path[1..][n];
      }
      TracksFollows(k, path[1..]);
    } else {
      assert p == [];
    }
  }

  /** From the node at depth `n` on, the path follows the subtree; the index counts what is left of the subtree too. */
  lemma {:induction false} FollowsBelow(t: Tree, path: seq<Entry>, n: nat)
    requires Follows(t, path) && n < |path|
    ensures OnPath(t, Steps(path)[..n]) && Follows(Sub(t, Steps(path)[..n]), path[n..])
    ensures Rank(t, path) == |Left(t, Steps(path)[..n])| + Rank(Sub(t, Steps(path)[..n]), path[n..])
    decreases n
  {
    if n > 0 {
      var p := Steps(path);
      assert p[1..] == Steps(path[1..]);
      assert p[..n][1..] == p[1..][..n - 1];
      assert path[1..][n - 1..] == path[n..];
      FollowsBelow(t.kids[path[0].slot], path[1..], n - 1);
    }
  }

  lemma {:induction false} FollowsAbove(t: Tree, trail: seq<Entry>, u: seq<int>, below: seq<Entry>)
    requires Trail(t, trail, u) && OnPath(t, u) && Follows(Sub(t, u), below)
    ensures Follows(t, trail + below) && Steps(trail + below)[..|u|] == u
    ensures Rank(t, trail + below) == |Left(t, u)| + Rank(Sub(t, u), below)
    decreases |u|
  {
    var path := trail + below;
    if u == [] {
      assert path == below;
    } else {
      assert u[..0] == [];
      var k := t.kids[u[0]];
      assert path[1..] == trail[1..] + below;
      forall j | 0 <= j < |u| - 1 ensures OnPath(k, u[1..][..j]) && trail[1..][j].node == Sub(k, u[1..][..j]).addr {
        assert u[..j + 1][1..] == u[1..][..j];
      }
      FollowsAbove(k, trail[1..], u[1..], below);
      assert Steps(path)[..|u|] == u;
    }
  }

  // ----- edits of a range in place -----

  /** The same nodes with the same numbers of entries; the ranges may differ. */
  ghost predicate SameShape(t: Tree, t': Tree)
    decreases t
  {
    && t.addr == t'.addr && t.Leaf? == t'.Leaf? && Arity(t) == Arity(t')
    && (t.Fork? ==> forall i :: 0 <= i < |t.kids| ==> SameShape(t.kids[i], t'.kids[i]))
  }

  lemma {:induction false} SameShapeSelf(t: Tree)
    ensures SameShape(t, t)
    decreases t
  {
    if t.Fork? {
      forall i | 0 <= i < |t.kids| ensures SameShape(t.kids[i], t.kids[i]) {
        SameShapeSelf(t.kids[i]);
      }
    }
  }

  lemma {:induction false} SameShapePlug(t: Tree, p: seq<int>, s: Tree)
    requires OnPath(t, p) && SameShape(Sub(t, p), s)
    ensures SameShape(t, Plug(t, p, s))
    decreases |p|
  {
    if p != [] {
      SameShapePlug(t.kids[p[0]], p[1..], s);
      forall i | 0 <= i < |t.kids| ensures SameShape(t.kids[i], Plug(t, p, s).kids[i]) {
        if i != p[0] {
          SameShapeSelf(t.kids[i]);
        }
      }
    }
  }

  lemma {:induction false} SameShapeSize(t: Tree, t': Tree)
    requires SameShape(t, t')
    ensures |Flat(t)| == |Flat(t')|
    decreases t, 0
  {
    if t.Fork? {
      SameShapeSizeAll(t.kids, t'.kids);
    }
  }

  lemma {:induction false} SameShapeSizeAll(ts: seq<Tree>, us: seq<Tree>)
    requires |ts| == |us| && forall i :: 0 <= i < |ts| ==> SameShape(ts[i], us[i])
    ensures |FlatAll(ts)| == |FlatAll(us)|
    decreases ts, 1
  {
    if ts != [] {
      SameShapeSize(ts[0], us[0]);
      SameShapeSizeAll(ts[1..], us[1..]);
    }
  }

  /** A path stays good, and keeps its index, while ranges are edited in place. */
  lemma {:induction false} SameShapeFollows(t: Tree, t': Tree, path: seq<Entry>)
    requires SameShape(t, t') && Follows(t, path)
    ensures Follows(t', path) && Rank(t', path) == Rank(t, path)
    decreases |path|
  {
    if t.Fork? {
      var i := path[0].slot;
      SameShapeFollows(t.kids[i], t'.kids[i], path[1..]);
      SameShapeSizeAll(t.kids[..i], t'.kids[..i]);
    }
  }

  lemma SameShapeTracks(t: Tree, p: seq<int>, s: Tree, path: seq<Entry>)
    requires OnPath(t, p) && Sub(t, p).Leaf? && s.Leaf? && s.addr == Sub(t, p).addr && |s.rs| == |Sub(t, p).rs|
    requires Tracks(t, path)
    ensures Tracks(Plug(t, p, s), path) && Index(Plug(t, p, s), path) == Index(t, path)
  {
    SameShapePlug(t, p, s);
    TracksFollows(t, path);
    SameShapeFollows(t, Plug(t, p, s), path);
    FollowsSteps(t, path);
    FollowsSteps(Plug(t, p, s), path);
  }
}
