/** The shape that the nodes in memory represent: a tree of ranges, what it lists in order, and how a change to one
    subtree carries over to the whole. */
module BPlusTrees {
  import opened Basics
  import opened Ranges
  import opened BPlusNodes

  /** One level of a path from the root to a range. */
  datatype Entry = Entry(node: Addr, slot: int)

  datatype Tree =
    | Leaf(addr: Addr, rs: seq<Range>)
    | Fork(addr: Addr, kids: seq<Tree>)

  // ----- contents -----

  /** The ranges in order. */
  ghost function Flat(t: Tree): seq<Range>
    decreases t, 0
  {
    match t
    case Leaf(_, rs) => rs
    case Fork(_, kids) => FlatAll(kids)
  }

  ghost function FlatAll(ts: seq<Tree>): seq<Range>
    decreases ts, 1
  {
    if ts == [] then [] else Flat(ts[0]) + FlatAll(ts[1..])
  }

  lemma {:induction false} FlatAllConcat(a: seq<Tree>, b: seq<Tree>)
    ensures FlatAll(a + b) == FlatAll(a) + FlatAll(b)
  {
    if a == [] {
      assert a + b == b;
    } else {
      assert (a + b)[1..] == a[1..] + b;
      FlatAllConcat(a[1..], b);
    }
  }

  lemma FlatAllOne(t: Tree)
    ensures FlatAll([t]) == Flat(t)
  {
    assert [t][1..] == [];
  }

  lemma FlatAllAround(ts: seq<Tree>, i: nat)
    requires i < |ts|
    ensures FlatAll(ts) == FlatAll(ts[..i]) + Flat(ts[i]) + FlatAll(ts[i + 1..])
  {
    hide FlatAll, Flat;
    var a, x, b := ts[..i], ts[i], ts[i + 1..];
    Around(ts, i);
    FlatAllConcat(a + [x], b);
    FlatAllConcat(a, [x]);
    FlatAllOne(x);
  }

  lemma Around<T>(s: seq<T>, i: nat)
    requires i < |s|
    ensures s == s[..i] + [s[i]] + s[i + 1..]
  {
  }

  /** The start of the first range, which is what separators refer to. */
  ghost function First(t: Tree): nat
    decreases t
  {
    match t
    case Leaf(_, rs) => if rs == [] then UINT64_MAX else rs[0].start
    case Fork(_, kids) => if kids == [] then UINT64_MAX else First(kids[0])
  }

  // ----- addresses -----

  ghost function Addrs(t: Tree): set<Addr>
    decreases t, 0
  {
    match t
    case Leaf(a, _) => {a}
    case Fork(a, kids) => {a} + AddrsAll(kids)
  }

  ghost function AddrsAll(ts: seq<Tree>): set<Addr>
    decreases ts, 1
  {
    set i, b | 0 <= i < |ts| && b in Addrs(ts[i]) :: b
  }

  /** No two nodes share an address. */
  ghost predicate Distinct(t: Tree)
    decreases t
  {
    match t
    case Leaf(_, _) => true
    case Fork(a, kids) =>
      && (forall i :: 0 <= i < |kids| ==> Distinct(kids[i]) && a !in Addrs(kids[i]))
      && (forall i, j :: 0 <= i < j < |kids| ==> Addrs(kids[i]) !! Addrs(kids[j]))
  }

  // ----- shape -----

  ghost predicate HasHeight(t: Tree, h: nat)
    decreases t
  {
    match t
    case Leaf(_, _) => h == 1
    case Fork(_, kids) => h > 1 && kids != [] && forall i :: 0 <= i < |kids| ==> HasHeight(kids[i], h - 1)
  }

  /** Nodes other than the root are at least half full. */
  ghost predicate Filled(t: Tree)
    decreases t
  {
    match t
    case Leaf(_, rs) => MIN_ENTRIES <= |rs| <= FANOUT
    case Fork(_, kids) =>
      MIN_ENTRIES <= |kids| <= FANOUT && forall i :: 0 <= i < |kids| ==> Filled(kids[i])
  }

  ghost predicate FilledRoot(t: Tree)
  {
    match t
    case Leaf(_, rs) => 1 <= |rs| <= FANOUT
    case Fork(_, kids) => 2 <= |kids| <= FANOUT && forall i :: 0 <= i < |kids| ==> Filled(kids[i])
  }

  // ----- memory -----

  ghost function Mins(ts: seq<Tree>): (ms: seq<nat>)
    ensures |ms| == |ts|
  {
    seq(|ts|, i requires 0 <= i < |ts| => First(ts[i]))
  }

  ghost function KidAddrs(ts: seq<Tree>): (ks: seq<Addr>)
    ensures |ks| == |ts|
  {
    seq(|ts|, i requires 0 <= i < |ts| => ts[i].addr)
  }

  /** The nodes in memory at the tree's addresses are the tree. */
  ghost predicate Holds(m: map<Addr, Node>, t: Tree)
    decreases t
  {
    match t
    case Leaf(a, rs) => a in m && m[a].LeafNode? && LeafHolds(m[a].ranges, rs)
    case Fork(a, kids) => HoldsKids(m, a, kids) && forall i :: 0 <= i < |kids| ==> Holds(m, kids[i])
  }

  /** The node at address `a` lists the children `ts`. */
  ghost predicate HoldsKids(m: map<Addr, Node>, a: Addr, ts: seq<Tree>)
  {
    a in m && m[a].InnerNode? && InnerHolds(m[a].keys, m[a].children, Mins(ts), KidAddrs(ts))
  }

  ghost predicate Agree(m: map<Addr, Node>, m': map<Addr, Node>, s: set<Addr>)
  {
    forall a :: a in s && a in m ==> a in m' && m'[a] == m[a]
  }

  /** Nothing changed outside the given addresses. */
  ghost predicate AgreeOff(m: map<Addr, Node>, m': map<Addr, Node>, s: set<Addr>)
  {
    forall a :: a in m && a !in s ==> a in m' && m'[a] == m[a]
  }

  /** One address was added. */
  ghost predicate Adds(m: map<Addr, Node>, m': map<Addr, Node>, a: Addr)
  {
    m'.Keys == m.Keys + {a}
  }

  /** One address was removed. */
  ghost predicate Drops(m: map<Addr, Node>, m': map<Addr, Node>, a: Addr)
  {
    m'.Keys == m.Keys - {a}
  }

  /** Memory that agrees on the tree's addresses holds the same tree. */
  lemma {:induction false} HoldsFrame(m: map<Addr, Node>, m': map<Addr, Node>, t: Tree)
    requires Holds(m, t)
    requires Agree(m, m', Addrs(t))
    ensures Holds(m', t)
    decreases t
  {
    assert t.addr in Addrs(t);
    if t.Fork? {
      forall i | 0 <= i < |t.kids| ensures Holds(m', t.kids[i]) {
        assert Addrs(t.kids[i]) <= Addrs(t);
        HoldsFrame(m, m', t.kids[i]);
      }
    }
  }

  // ----- paths -----

  ghost predicate OnPath(t: Tree, p: seq<int>)
    decreases |p|
  {
    p == [] || (t.Fork? && 0 <= p[0] < |t.kids| && OnPath(t.kids[p[0]], p[1..]))
  }

  ghost function Sub(t: Tree, p: seq<int>): Tree
    requires OnPath(t, p)
    decreases |p|
  {
    if p == [] then t else Sub(t.kids[p[0]], p[1..])
  }

  /** The tree with the subtree at `p` replaced. */
  ghost function Plug(t: Tree, p: seq<int>, s: Tree): Tree
    requires OnPath(t, p)
    decreases |p|
  {
    if p == [] then s else Fork(t.addr, t.kids[p[0] := Plug(t.kids[p[0]], p[1..], s)])
  }

  /** The ranges listed before the subtree at `p`. */
  ghost function Left(t: Tree, p: seq<int>): seq<Range>
    requires OnPath(t, p)
    decreases |p|
  {
    if p == [] then [] else FlatAll(t.kids[..p[0]]) + Left(t.kids[p[0]], p[1..])
  }

  ghost function Right(t: Tree, p: seq<int>): seq<Range>
    requires OnPath(t, p)
    decreases |p|
  {
    if p == [] then [] else Right(t.kids[p[0]], p[1..]) + FlatAll(t.kids[p[0] + 1..])
  }

  ghost predicate AllZero(p: seq<int>)
  {
    forall i :: 0 <= i < |p| ==> p[i] == 0
  }

  /** The path follows the last child everywhere. */
  ghost predicate Rightmost(t: Tree, p: seq<int>)
    requires OnPath(t, p)
    decreases |p|
  {
    p == [] || (p[0] == |t.kids| - 1 && Rightmost(t.kids[p[0]], p[1..]))
  }

  lemma {:induction false} FlatSplit(t: Tree, p: seq<int>)
    requires OnPath(t, p)
    ensures Flat(t) == Left(t, p) + Flat(Sub(t, p)) + Right(t, p)
    decreases |p|
  {
    if p != [] {
      FlatSplit(t.kids[p[0]], p[1..]);
      FlatAllAround(t.kids, p[0]);
    }
  }

  lemma {:induction false} PlugContext(t: Tree, p: seq<int>, s: Tree)
    requires OnPath(t, p)
    ensures OnPath(Plug(t, p, s), p)
    ensures Sub(Plug(t, p, s), p) == s
    ensures Left(Plug(t, p, s), p) == Left(t, p)
    ensures Right(Plug(t, p, s), p) == Right(t, p)
    ensures Rightmost(Plug(t, p, s), p) == Rightmost(t, p)
    decreases |p|
  {
    if p != [] {
      var k := t.kids[p[0]];
      PlugContext(k, p[1..], s);
      var kids := t.kids[p[0] := Plug(k, p[1..], s)];
      assert kids[..p[0]] == t.kids[..p[0]];
      assert kids[p[0] + 1..] == t.kids[p[0] + 1..];
    }
  }

  lemma FlatPlug(t: Tree, p: seq<int>, s: Tree)
    requires OnPath(t, p)
    ensures Flat(Plug(t, p, s)) == Left(t, p) + Flat(s) + Right(t, p)
  {
    PlugContext(t, p, s);
    FlatSplit(Plug(t, p, s), p);
  }

  /** Paths one step longer. */
  lemma {:induction false} Deeper(t: Tree, p: seq<int>, i: nat)
    requires OnPath(t, p) && Sub(t, p).Fork? && i < |Sub(t, p).kids|
    ensures OnPath(t, p + [i])
    ensures Sub(t, p + [i]) == Sub(t, p).kids[i]
    ensures Left(t, p + [i]) == Left(t, p) + FlatAll(Sub(t, p).kids[..i])
    ensures Right(t, p + [i]) == FlatAll(Sub(t, p).kids[i + 1..]) + Right(t, p)
    ensures Rightmost(t, p + [i]) <==> Rightmost(t, p) && i == |Sub(t, p).kids| - 1
    decreases |p|
  {
    if p == [] {
      assert [i][1..] == [];
    } else {
      Deeper(t.kids[p[0]], p[1..], i);
      assert (p + [i])[1..] == p[1..] + [i];
    }
  }

  /** Paths one step shorter. */
  lemma {:induction false} Shallower(t: Tree, p: seq<int>)
    requires OnPath(t, p) && p != []
    ensures var q, i := p[..|p| - 1], p[|p| - 1];
            OnPath(t, q) && Sub(t, q).Fork? && 0 <= i < |Sub(t, q).kids| && Sub(t, q).kids[i] == Sub(t, p)
    decreases |p|
  {
    var q := p[..|p| - 1];
    if |p| > 1 {
      Shallower(t.kids[p[0]], p[1..]);
      assert q[1..] == p[1..][..|p| - 2];
    } else {
      assert q == [] && p[1..] == [];
    }
  }

  lemma {:induction false} PlugDeeper(t: Tree, p: seq<int>, i: nat, s: Tree)
    requires OnPath(t, p) && Sub(t, p).Fork? && i < |Sub(t, p).kids|
    requires OnPath(t, p + [i])
    ensures Plug(t, p + [i], s) == Plug(t, p, Fork(Sub(t, p).addr, Sub(t, p).kids[i := s]))
    decreases |p|
  {
    if p == [] {
      assert [i][1..] == [];
    } else {
      assert (p + [i])[1..] == p[1..] + [i];
      PlugDeeper(t.kids[p[0]], p[1..], i, s);
    }
  }

  lemma {:induction false} PlugPlug(t: Tree, p: seq<int>, s: Tree, s': Tree)
    requires OnPath(t, p)
    ensures OnPath(Plug(t, p, s), p)
    ensures Plug(Plug(t, p, s), p, s') == Plug(t, p, s')
    decreases |p|
  {
    PlugContext(t, p, s);
    if p != [] {
      PlugPlug(t.kids[p[0]], p[1..], s, s');
      var i := p[0];
      assert t.kids[i := Plug(t.kids[i], p[1..], s)][i := Plug(t.kids[i], p[1..], s')]
          == t.kids[i := Plug(t.kids[i], p[1..], s')];
    }
  }

  lemma {:induction false} PlugSame(t: Tree, p: seq<int>)
    requires OnPath(t, p)
    ensures Plug(t, p, Sub(t, p)) == t
    decreases |p|
  {
    if p != [] {
      PlugSame(t.kids[p[0]], p[1..]);
      assert t.kids[p[0] := t.kids[p[0]]] == t.kids;
    }
  }

  // ----- replacing one subtree -----

  lemma {:induction false} SubAddrs(t: Tree, p: seq<int>)
    requires OnPath(t, p)
    ensures Addrs(Sub(t, p)) <= Addrs(t)
    ensures Distinct(t) ==> Distinct(Sub(t, p))
    decreases |p|
  {
    if p != [] {
      SubAddrs(t.kids[p[0]], p[1..]);
    }
  }

  lemma {:induction false} SubHolds(m: map<Addr, Node>, t: Tree, p: seq<int>)
    requires OnPath(t, p) && Holds(m, t)
    ensures Holds(m, Sub(t, p))
    decreases |p|
  {
    if p != [] {
      SubHolds(m, t.kids[p[0]], p[1..]);
    }
  }

  lemma {:induction false} SubHeight(t: Tree, p: seq<int>, h: nat)
    requires OnPath(t, p) && HasHeight(t, h)
    ensures |p| < h && HasHeight(Sub(t, p), h - |p|)
    decreases |p|
  {
    if p != [] {
      SubHeight(t.kids[p[0]], p[1..], h - 1);
    }
  }

  lemma {:induction false} PlugHeight(t: Tree, p: seq<int>, h: nat, s: Tree)
    requires OnPath(t, p) && HasHeight(t, h) && |p| < h && HasHeight(s, h - |p|)
    ensures HasHeight(Plug(t, p, s), h)
    decreases |p|
  {
    if p != [] {
      PlugHeight(t.kids[p[0]], p[1..], h - 1, s);
    }
  }

  lemma {:induction false} PlugFirst(t: Tree, p: seq<int>, s: Tree)
    requires OnPath(t, p)
    ensures AllZero(p) ==> First(Plug(t, p, s)) == First(s)
    ensures !AllZero(p) || First(s) == First(Sub(t, p)) ==> First(Plug(t, p, s)) == First(t)
    ensures AllZero(p) ==> First(t) == First(Sub(t, p))
    decreases |p|
  {
    if p != [] {
      PlugFirst(t.kids[p[0]], p[1..], s);
      assert AllZero(p) <==> p[0] == 0 && AllZero(p[1..]) by {
        assert forall i :: 0 <= i < |p| - 1 ==> p[1..][i] == p[i + 1];
      }
    }
  }

  lemma PlugAddr(t: Tree, p: seq<int>, s: Tree)
    requires OnPath(t, p) && s.addr == Sub(t, p).addr
    ensures Plug(t, p, s).addr == t.addr
  {
  }

  lemma AddrsOfKid(t: Tree, i: nat)
    requires t.Fork? && i < |t.kids|
    ensures Addrs(t.kids[i]) <= Addrs(t)
  {
  }

  lemma {:induction false} PlugAddrs(t: Tree, p: seq<int>, s: Tree)
    requires OnPath(t, p) && Distinct(t) && Distinct(s)
    requires Addrs(s) !! (Addrs(t) - Addrs(Sub(t, p)))
    ensures Distinct(Plug(t, p, s))
    ensures Addrs(Plug(t, p, s)) == (Addrs(t) - Addrs(Sub(t, p))) + Addrs(s)
    decreases |p|
  {
    SubAddrs(t, p);
    if p != [] {
      var i := p[0];
      var k := t.kids[i];
      AddrsOfKid(t, i);
      SubAddrs(k, p[1..]);
      PlugAddrs(k, p[1..], s);
      SwapKid(t, i, Plug(k, p[1..], s));
    }
  }

  lemma SwapKid(t: Tree, i: nat, k: Tree)
    requires t.Fork? && i < |t.kids| && Distinct(t) && Distinct(k)
    requires Addrs(k) !! (Addrs(t) - Addrs(t.kids[i]))
    ensures var t' := Fork(t.addr, t.kids[i := k]);
            Distinct(t') && Addrs(t') == (Addrs(t) - Addrs(t.kids[i])) + Addrs(k)
  {
    var kids := t.kids[i := k];
    forall j | 0 <= j < |kids| && j != i ensures Addrs(kids[j]) !! Addrs(t.kids[i]) && Addrs(kids[j]) <= Addrs(t) {
      AddrsOfKid(t, j);
    }
    var t' := Fork(t.addr, kids);
    forall a ensures a in Addrs(t') <==> a in (Addrs(t) - Addrs(t.kids[i])) + Addrs(k) {
      if a in Addrs(k) {
        assert kids[i] == k;
      } else if a in Addrs(t) && a !in Addrs(t.kids[i]) && a != t.addr {
        var j :| 0 <= j < |t.kids| && a in Addrs(t.kids[j]);
        assert a in Addrs(kids[j]);
      }
    }
  }

  /** Replacing the subtree at `p` in memory, and nothing else, replaces it in the tree that memory holds. */
  lemma {:induction false} Graft(m: map<Addr, Node>, m': map<Addr, Node>, t: Tree, p: seq<int>, s: Tree)
    requires OnPath(t, p) && Holds(m, t) && Distinct(t) && Holds(m', s)
    requires s.addr == Sub(t, p).addr
    requires Agree(m, m', Addrs(t) - Addrs(Sub(t, p)))
    requires First(s) == First(Sub(t, p)) || AllZero(p)
    ensures Holds(m', Plug(t, p, s))
    decreases |p|
  {
    if p != [] {
      var i := p[0];
      var k := t.kids[i];
      AddrsOfKid(t, i);
      SubAddrs(k, p[1..]);
      assert AllZero(p) ==> AllZero(p[1..]);
      Graft(m, m', k, p[1..], s);
      GraftKid(m, m', t, i, Plug(k, p[1..], s)) by {
        PlugFirst(k, p[1..], s);
        PlugAddr(k, p[1..], s);
        assert forall j :: 0 <= j < |t.kids| && j != i ==> Addrs(t.kids[j]) !! Addrs(k);
      }
    }
  }

  lemma GraftKid(m: map<Addr, Node>, m': map<Addr, Node>, t: Tree, i: nat, k: Tree)
    requires t.Fork? && i < |t.kids| && Holds(m, t) && Distinct(t) && Holds(m', k)
    requires k.addr == t.kids[i].addr
    requires Agree(m, m', Addrs(t) - Addrs(t.kids[i]))
    requires First(k) == First(t.kids[i]) || i == 0
    ensures Holds(m', Fork(t.addr, t.kids[i := k]))
  {
    var kids := t.kids[i := k];
    assert t.addr in Addrs(t) && t.addr !in Addrs(t.kids[i]);
    forall j | 0 <= j < |kids| ensures Holds(m', kids[j]) {
      if j != i {
        AddrsOfKid(t, j);
        assert Addrs(t.kids[j]) !! Addrs(t.kids[i]);
        HoldsFrame(m, m', t.kids[j]);
      }
    }
  }

  // ----- fill -----

  /** Everything off the path is filled; the topmost node has at least `least` children. */
  ghost predicate FillAround(t: Tree, p: seq<int>, least: nat)
    requires OnPath(t, p)
    decreases |p|
  {
    p == [] || (
      && least <= |t.kids| <= FANOUT
      && (forall i :: 0 <= i < |t.kids| && i != p[0] ==> Filled(t.kids[i]))
      && FillAround(t.kids[p[0]], p[1..], MIN_ENTRIES))
  }

  lemma {:induction false} FillAroundPlug(t: Tree, p: seq<int>, least: nat, s: Tree)
    requires OnPath(t, p) && FillAround(t, p, least)
    ensures OnPath(Plug(t, p, s), p) && FillAround(Plug(t, p, s), p, least)
    decreases |p|
  {
    PlugContext(t, p, s);
    if p != [] {
      FillAroundPlug(t.kids[p[0]], p[1..], MIN_ENTRIES, s);
    }
  }

  lemma {:induction false} FilledSplits(t: Tree, p: seq<int>)
    requires OnPath(t, p) && Filled(t)
    ensures FillAround(t, p, MIN_ENTRIES) && Filled(Sub(t, p))
    decreases |p|
  {
    if p != [] {
      FilledSplits(t.kids[p[0]], p[1..]);
    }
  }

  lemma FilledRootSplits(t: Tree, p: seq<int>)
    requires OnPath(t, p) && FilledRoot(t)
    ensures FillAround(t, p, 2)
    ensures if p == [] then FilledRoot(Sub(t, p)) else Filled(Sub(t, p))
  {
    if p != [] {
      FilledSplits(t.kids[p[0]], p[1..]);
    }
  }

  lemma {:induction false} FilledJoins(t: Tree, p: seq<int>)
    requires OnPath(t, p) && FillAround(t, p, MIN_ENTRIES) && Filled(Sub(t, p))
    ensures Filled(t)
    decreases |p|
  {
    if p != [] {
      FilledJoins(t.kids[p[0]], p[1..]);
    }
  }

  lemma FilledRootJoins(t: Tree, p: seq<int>)
    requires OnPath(t, p) && FillAround(t, p, 2)
    requires if p == [] then FilledRoot(Sub(t, p)) else Filled(Sub(t, p))
    ensures FilledRoot(t)
  {
    if p != [] {
      FilledJoins(t.kids[p[0]], p[1..]);
    }
  }

  lemma {:induction false} FillAroundDeeper(t: Tree, p: seq<int>, i: nat, least: nat)
    requires OnPath(t, p) && Sub(t, p).Fork? && i < |Sub(t, p).kids| && OnPath(t, p + [i])
    ensures FillAround(t, p + [i], least) <==>
            && FillAround(t, p, least)
            && (if p == [] then least else MIN_ENTRIES) <= |Sub(t, p).kids| <= FANOUT
            && (forall j :: 0 <= j < |Sub(t, p).kids| && j != i ==> Filled(Sub(t, p).kids[j]))
    decreases |p|
  {
    if p == [] {
      assert [i][1..] == [];
    } else {
      assert (p + [i])[1..] == p[1..] + [i];
      FillAroundDeeper(t.kids[p[0]], p[1..], i, MIN_ENTRIES);
    }
  }

  // ----- the two ends -----

  ghost function LastLeaf(t: Tree): Tree
    decreases t
  {
    if t.Leaf? || t.kids == [] then t else LastLeaf(t.kids[|t.kids| - 1])
  }

  ghost function FirstLeaf(t: Tree): Tree
    decreases t
  {
    if t.Leaf? || t.kids == [] then t else FirstLeaf(t.kids[0])
  }

  lemma {:induction false} PlugEnds(t: Tree, p: seq<int>, s: Tree)
    requires OnPath(t, p)
    ensures LastLeaf(Plug(t, p, s)) == if Rightmost(t, p) then LastLeaf(s) else LastLeaf(t)
    ensures FirstLeaf(Plug(t, p, s)) == if AllZero(p) then FirstLeaf(s) else FirstLeaf(t)
    ensures Rightmost(t, p) ==> LastLeaf(t) == LastLeaf(Sub(t, p))
    ensures AllZero(p) ==> FirstLeaf(t) == FirstLeaf(Sub(t, p))
    decreases |p|
  {
    if p != [] {
      PlugEnds(t.kids[p[0]], p[1..], s);
      assert AllZero(p) <==> p[0] == 0 && AllZero(p[1..]) by {
        assert forall i :: 0 <= i < |p| - 1 ==> p[1..][i] == p[i + 1];
      }
    }
  }

  lemma {:induction false} EndsInside(t: Tree)
    ensures LastLeaf(t).addr in Addrs(t) && FirstLeaf(t).addr in Addrs(t)
    decreases t
  {
    if t.Fork? && t.kids != [] {
      EndsInside(t.kids[0]);
      EndsInside(t.kids[|t.kids| - 1]);
    }
  }

  /** The leaf at `p` is the last one exactly when its address is that of the last one. */
  lemma {:induction false} LastLeafOnPath(t: Tree, p: seq<int>)
    requires OnPath(t, p) && Distinct(t) && Sub(t, p).Leaf?
    ensures Sub(t, p).addr == LastLeaf(t).addr <==> Rightmost(t, p)
    ensures Rightmost(t, p) ==> LastLeaf(t) == Sub(t, p)
    decreases |p|
  {
    if p != [] {
      var k, last := t.kids[p[0]], t.kids[|t.kids| - 1];
      LastLeafOnPath(k, p[1..]);
      SubAddrs(k, p[1..]);
      EndsInside(last);
      assert Sub(t, p).addr in Addrs(k);
      assert p[0] < |t.kids| - 1 ==> Addrs(k) !! Addrs(last);
    }
  }

  lemma {:induction false} FirstLeafOnPath(t: Tree, p: seq<int>)
    requires OnPath(t, p) && Distinct(t) && Sub(t, p).Leaf?
    ensures Sub(t, p).addr == FirstLeaf(t).addr <==> AllZero(p)
    decreases |p|
  {
    if p != [] {
      var k, first := t.kids[p[0]], t.kids[0];
      FirstLeafOnPath(k, p[1..]);
      SubAddrs(k, p[1..]);
      EndsInside(first);
      assert Sub(t, p).addr in Addrs(k);
      assert p[0] > 0 ==> Addrs(k) !! Addrs(first);
      assert AllZero(p) <==> p[0] == 0 && AllZero(p[1..]) by {
        assert forall i :: 0 <= i < |p| - 1 ==> p[1..][i] == p[i + 1];
      }
    }
  }

  // ----- joining paths -----

  lemma {:induction false} PathConcat(t: Tree, a: seq<int>, b: seq<int>)
    requires OnPath(t, a)
    ensures OnPath(t, a + b) <==> OnPath(Sub(t, a), b)
    ensures OnPath(t, a + b) ==>
              && Sub(t, a + b) == Sub(Sub(t, a), b)
              && Left(t, a + b) == Left(t, a) + Left(Sub(t, a), b)
              && (Rightmost(t, a + b) <==> Rightmost(t, a) && Rightmost(Sub(t, a), b))
    decreases |a|
  {
    if a == [] {
      assert a + b == b;
    } else {
      assert (a + b)[1..] == a[1..] + b;
      PathConcat(t.kids[a[0]], a[1..], b);
    }
  }

  lemma {:induction false} PlugConcat(t: Tree, a: seq<int>, b: seq<int>, s: Tree)
    requires OnPath(t, a) && OnPath(Sub(t, a), b) && OnPath(t, a + b)
    ensures Plug(t, a + b, s) == Plug(t, a, Plug(Sub(t, a), b, s))
    decreases |a|
  {
    if a == [] {
      assert a + b == b;
    } else {
      assert (a + b)[1..] == a[1..] + b;
      PlugConcat(t.kids[a[0]], a[1..], b, s);
    }
  }

  // ----- positions -----

  /** The path goes through the nodes of the tree down to a slot of a leaf; slot -1 stands for the position before the
      leaf's first range. */
  ghost predicate Follows(t: Tree, path: seq<Entry>)
    decreases |path|
  {
    && path != [] && path[0].node == t.addr
    && match t
       case Leaf(_, rs) => |path| == 1 && -1 <= path[0].slot < |rs|
       case Fork(_, kids) => 0 <= path[0].slot < |kids| && Follows(kids[path[0].slot], path[1..])
  }

  /** The index in `Flat(t)` that the path addresses. */
  ghost function Rank(t: Tree, path: seq<Entry>): int
    requires Follows(t, path)
    decreases |path|
  {
    match t
    case Leaf(_, rs) => path[0].slot
    case Fork(_, kids) => |FlatAll(kids[..path[0].slot])| + Rank(kids[path[0].slot], path[1..])
  }

  // ----- moving entries between neighbours -----

  ghost function Arity(t: Tree): nat
  {
    match t
    case Leaf(_, rs) => |rs|
    case Fork(_, kids) => |kids|
  }

  /** The entries of two neighbours in one node, at the address of the low one. */
  ghost function Join(low: Tree, high: Tree): Tree
    requires low.Leaf? == high.Leaf?
  {
    if low.Leaf? then Leaf(low.addr, low.rs + high.rs) else Fork(low.addr, low.kids + high.kids)
  }

  lemma JoinFlat(low: Tree, high: Tree)
    requires low.Leaf? == high.Leaf?
    ensures Flat(Join(low, high)) == Flat(low) + Flat(high)
  {
    if low.Fork? {
      FlatAllConcat(low.kids, high.kids);
    }
  }

  lemma JoinFirst(low: Tree, high: Tree)
    requires low.Leaf? == high.Leaf? && Arity(low) > 0
    ensures First(Join(low, high)) == First(low)
    ensures FirstLeaf(Join(low, high)).addr == FirstLeaf(low).addr
  {
  }

  lemma JoinLast(low: Tree, high: Tree)
    requires low.Leaf? == high.Leaf? && Arity(high) > 0
    ensures low.Fork? ==> LastLeaf(Join(low, high)) == LastLeaf(high)
  {
  }

  lemma JoinHeight(low: Tree, high: Tree, h: nat)
    requires low.Leaf? == high.Leaf? && Arity(low) > 0 && Arity(high) > 0
    ensures HasHeight(low, h) && HasHeight(high, h) <==> HasHeight(Join(low, high), h)
  {
    if low.Fork? && HasHeight(Join(low, high), h) {
      var all := low.kids + high.kids;
      forall i | 0 <= i < |low.kids| ensures HasHeight(low.kids[i], h - 1) {
        assert all[i] == low.kids[i];
      }
      forall i | 0 <= i < |high.kids| ensures HasHeight(high.kids[i], h - 1) {
        assert all[|low.kids| + i] == high.kids[i];
      }
    }
  }

  ghost predicate KidsFilled(t: Tree)
  {
    t.Fork? ==> forall i :: 0 <= i < |t.kids| ==> Filled(t.kids[i])
  }

  lemma JoinKidsFilled(low: Tree, high: Tree)
    requires low.Leaf? == high.Leaf?
    ensures KidsFilled(low) && KidsFilled(high) <==> KidsFilled(Join(low, high))
  {
    if low.Fork? && KidsFilled(Join(low, high)) {
      var all := low.kids + high.kids;
      forall i | 0 <= i < |low.kids| ensures Filled(low.kids[i]) {
        assert all[i] == low.kids[i];
      }
      forall i | 0 <= i < |high.kids| ensures Filled(high.kids[i]) {
        assert all[|low.kids| + i] == high.kids[i];
      }
    }
  }

  lemma JoinAddrs(low: Tree, high: Tree)
    requires low.Leaf? == high.Leaf?
    ensures Addrs(Join(low, high)) == {low.addr} + (Addrs(low) - {low.addr}) + KidSet(high)
    ensures Addrs(low) == {low.addr} + KidSet(low)
    ensures Addrs(Join(low, high)) == {low.addr} + KidSet(low) + KidSet(high)
  {
    if low.Fork? {
      var all := low.kids + high.kids;
      forall a ensures a in AddrsAll(all) <==> a in AddrsAll(low.kids) || a in AddrsAll(high.kids) {
        if a in AddrsAll(low.kids) {
          var i :| 0 <= i < |low.kids| && a in Addrs(low.kids[i]);
          assert a in Addrs(all[i]);
        }
        if a in AddrsAll(high.kids) {
          var i :| 0 <= i < |high.kids| && a in Addrs(high.kids[i]);
          assert a in Addrs(all[|low.kids| + i]);
        }
      }
    }
  }

  /** The addresses strictly below a node. */
  ghost function KidSet(t: Tree): set<Addr>
  {
    if t.Leaf? then {} else AddrsAll(t.kids)
  }

  lemma JoinDistinct(low: Tree, high: Tree)
    requires low.Leaf? == high.Leaf?
    ensures Distinct(low) && Distinct(high) && Addrs(low) !! Addrs(high) ==> Distinct(Join(low, high))
    ensures Distinct(Join(low, high)) && high.addr !in Addrs(Join(low, high))
            ==> Distinct(low) && Distinct(high) && Addrs(low) !! Addrs(high)
  {
    if low.Fork? {
      var all := low.kids + high.kids;
      assert forall i :: 0 <= i < |low.kids| ==> all[i] == low.kids[i];
      assert forall i :: 0 <= i < |high.kids| ==> all[|low.kids| + i] == high.kids[i];
      if Distinct(low) && Distinct(high) && Addrs(low) !! Addrs(high) {
        forall i, j | 0 <= i < j < |all| ensures Addrs(all[i]) !! Addrs(all[j]) {
          if i < |low.kids| <= j {
            AddrsOfKid(low, i);
            AddrsOfKid(high, j - |low.kids|);
          }
        }
        forall j | 0 <= j < |high.kids| ensures low.addr !in Addrs(high.kids[j]) {
          AddrsOfKid(high, j);
        }
      }
      if Distinct(Join(low, high)) && high.addr !in Addrs(Join(low, high)) {
        DistinctParts(low, high);
      }
    }
  }

  lemma DistinctParts(low: Tree, high: Tree)
    requires low.Fork? && high.Fork?
    requires Distinct(Join(low, high)) && high.addr !in Addrs(Join(low, high))
    ensures Distinct(low) && Distinct(high) && Addrs(low) !! Addrs(high)
  {
    var all := low.kids + high.kids;
    assert forall i :: 0 <= i < |low.kids| ==> all[i] == low.kids[i];
    assert forall i :: 0 <= i < |high.kids| ==> all[|low.kids| + i] == high.kids[i];
    forall i | 0 <= i < |all| ensures high.addr !in Addrs(all[i]) {
      AddrsOfKid(Join(low, high), i);
    }
    forall i, j | 0 <= i < |low.kids| && 0 <= j < |high.kids|
      ensures Addrs(low.kids[i]) !! Addrs(high.kids[j])
    {
      assert Addrs(all[i]) !! Addrs(all[|low.kids| + j]);
    }
  }

  lemma JoinRankLow(low: Tree, high: Tree, x: int, rest: seq<Entry>)
    requires low.Leaf? == high.Leaf? && Follows(low, [Entry(low.addr, x)] + rest)
    ensures Follows(Join(low, high), [Entry(low.addr, x)] + rest)
    ensures Rank(Join(low, high), [Entry(low.addr, x)] + rest) == Rank(low, [Entry(low.addr, x)] + rest)
  {
    if low.Fork? {
      var all := low.kids + high.kids;
      assert all[..x] == low.kids[..x];
      assert all[x] == low.kids[x];
    }
  }

  lemma JoinRankHigh(low: Tree, high: Tree, x: int, rest: seq<Entry>)
    requires low.Leaf? == high.Leaf? && Follows(high, [Entry(high.addr, x)] + rest)
    ensures var path := [Entry(low.addr, Arity(low) + x)] + rest;
            && Follows(Join(low, high), path)
            && Rank(Join(low, high), path) == |Flat(low)| + Rank(high, [Entry(high.addr, x)] + rest)
  {
    hide Follows, Rank, FlatAll, Join;
    if low.Fork? {
      ForkRankHigh(low, high, x, rest);
    } else {
      LeafRankHigh(low, high, x, rest);
    }
  }

  lemma LeafRankHigh(low: Tree, high: Tree, x: int, rest: seq<Entry>)
    requires low.Leaf? && high.Leaf? && Follows(high, [Entry(high.addr, x)] + rest)
    ensures var path := [Entry(low.addr, |low.rs| + x)] + rest;
            && Follows(Join(low, high), path)
            && Rank(Join(low, high), path) == |low.rs| + Rank(high, [Entry(high.addr, x)] + rest)
  {
  }

  lemma ForkRankHigh(low: Tree, high: Tree, x: int, rest: seq<Entry>)
    requires low.Fork? && high.Fork? && Follows(high, [Entry(high.addr, x)] + rest)
    ensures var path := [Entry(low.addr, |low.kids| + x)] + rest;
            && Follows(Join(low, high), path)
            && Rank(Join(low, high), path) == |FlatAll(low.kids)| + Rank(high, [Entry(high.addr, x)] + rest)
  {
    hide FlatAll;
    var all, n := low.kids + high.kids, |low.kids|;
    var q, q' := [Entry(high.addr, x)] + rest, [Entry(low.addr, n + x)] + rest;
    assert q[1..] == rest && q'[1..] == rest && all[n + x] == high.kids[x];
    OffsetInJoin(low.kids, high.kids, x);
  }

  lemma OffsetInJoin(a: seq<Tree>, b: seq<Tree>, x: nat)
    requires x <= |b|
    ensures |FlatAll((a + b)[..|a| + x])| == |FlatAll(a)| + |FlatAll(b[..x])|
  {
    assert (a + b)[..|a| + x] == a + b[..x];
    FlatAllConcat(a, b[..x]);
  }

  lemma JoinArity(low: Tree, high: Tree)
    requires low.Leaf? == high.Leaf?
    ensures Arity(Join(low, high)) == Arity(low) + Arity(high)
  {
  }

  /** Two trees that divide the entries of two neighbours in some other way. */
  ghost predicate Redivides(low: Tree, high: Tree, a: Tree, b: Tree)
  {
    && low.Leaf? == high.Leaf? == a.Leaf? == b.Leaf?
    && a.addr == low.addr && b.addr == high.addr
    && Join(a, b) == Join(low, high)
    && Arity(a) > 0 && Arity(b) > 0 && Arity(low) > 0 && Arity(high) > 0
  }

  ghost function TwoKids(t: Tree, i: nat, a: Tree, b: Tree): Tree
    requires t.Fork? && i + 1 < |t.kids|
  {
    Fork(t.addr, t.kids[i := a][i + 1 := b])
  }

  ghost function OneKid(t: Tree, i: nat, a: Tree): Tree
    requires t.Fork? && i + 1 < |t.kids|
  {
    Fork(t.addr, Remove(t.kids[i := a], i + 1))
  }

  lemma FlatAllPair(ts: seq<Tree>, i: nat)
    requires i + 1 < |ts|
    ensures FlatAll(ts) == FlatAll(ts[..i]) + (Flat(ts[i]) + Flat(ts[i + 1])) + FlatAll(ts[i + 2..])
  {
    FlatAllAround(ts, i);
    var tail := ts[i + 1..];
    assert tail[0] == ts[i + 1] && tail[1..] == ts[i + 2..];
    assert FlatAll(tail) == Flat(ts[i + 1]) + FlatAll(ts[i + 2..]);
    Regroup(FlatAll(ts[..i]), Flat(ts[i]), Flat(ts[i + 1]), FlatAll(ts[i + 2..]));
  }

  lemma Regroup<T>(a: seq<T>, b: seq<T>, c: seq<T>, d: seq<T>)
    ensures a + b + (c + d) == a + (b + c) + d
  {
  }

  lemma TwoKidsFlat(t: Tree, i: nat, a: Tree, b: Tree)
    requires t.Fork? && i + 1 < |t.kids| && Redivides(t.kids[i], t.kids[i + 1], a, b)
    ensures Flat(TwoKids(t, i, a, b)) == Flat(t)
  {
    var ts := t.kids[i := a][i + 1 := b];
    JoinFlat(t.kids[i], t.kids[i + 1]);
    JoinFlat(a, b);
    FlatAllPair(t.kids, i);
    FlatAllPair(ts, i);
    assert ts[..i] == t.kids[..i] && ts[i + 2..] == t.kids[i + 2..];
  }

  lemma OneKidFlat(t: Tree, i: nat)
    requires t.Fork? && i + 1 < |t.kids| && t.kids[i].Leaf? == t.kids[i + 1].Leaf?
    ensures Flat(OneKid(t, i, Join(t.kids[i], t.kids[i + 1]))) == Flat(t)
  {
    var a := Join(t.kids[i], t.kids[i + 1]);
    var ts := Remove(t.kids[i := a], i + 1);
    JoinFlat(t.kids[i], t.kids[i + 1]);
    FlatAllPair(t.kids, i);
    FlatAllAround(ts, i);
    assert ts[..i] == t.kids[..i] && ts[i + 1..] == t.kids[i + 2..] && ts[i] == a;
  }

  lemma TwoKidsAddrs(t: Tree, i: nat, a: Tree, b: Tree)
    requires t.Fork? && i + 1 < |t.kids| && Redivides(t.kids[i], t.kids[i + 1], a, b) && Distinct(t)
    ensures Distinct(TwoKids(t, i, a, b)) && Addrs(TwoKids(t, i, a, b)) == Addrs(t)
  {
    var low, high := t.kids[i], t.kids[i + 1];
    RedividedAddrs(low, high, a, b) by {
      assert Addrs(low) !! Addrs(high);
    }
    TwoKidsDistinct(t, i, a, b);
  }

  lemma RedividedAddrs(low: Tree, high: Tree, a: Tree, b: Tree)
    requires Redivides(low, high, a, b) && Distinct(low) && Distinct(high) && Addrs(low) !! Addrs(high)
    ensures Distinct(a) && Distinct(b) && Addrs(a) !! Addrs(b) && Addrs(a) + Addrs(b) == Addrs(low) + Addrs(high)
  {
    JoinAddrs(low, high);
    JoinAddrs(a, b);
    JoinAddrs(high, low);
    JoinAddrs(b, a);
    JoinDistinct(low, high);
    assert high.addr !in Addrs(Join(low, high)) by {
      assert high.addr in Addrs(high);
      if high.Fork? {
        assert forall j :: 0 <= j < |high.kids| ==> high.addr !in Addrs(high.kids[j]);
      }
    }
    JoinDistinct(a, b);
    assert low.Fork? || Addrs(a) !! Addrs(b);
  }

  lemma TwoKidsDistinct(t: Tree, i: nat, a: Tree, b: Tree)
    requires t.Fork? && i + 1 < |t.kids| && Distinct(t) && Distinct(a) && Distinct(b)
    requires Addrs(a) !! Addrs(b) && Addrs(a) + Addrs(b) == Addrs(t.kids[i]) + Addrs(t.kids[i + 1])
    ensures Distinct(TwoKids(t, i, a, b)) && Addrs(TwoKids(t, i, a, b)) == Addrs(t)
  {
    var ts := t.kids[i := a][i + 1 := b];
    forall j | 0 <= j < |ts| && j != i && j != i + 1
      ensures Addrs(ts[j]) !! Addrs(a) && Addrs(ts[j]) !! Addrs(b)
    {
      assert Addrs(t.kids[j]) !! Addrs(t.kids[i]) && Addrs(t.kids[j]) !! Addrs(t.kids[i + 1]);
    }
    forall x ensures x in AddrsAll(ts) <==> x in AddrsAll(t.kids) {
      if x in AddrsAll(t.kids) {
        var j :| 0 <= j < |t.kids| && x in Addrs(t.kids[j]);
        assert if j == i || j == i + 1 then x in Addrs(ts[i]) || x in Addrs(ts[i + 1]) else x in Addrs(ts[j]);
      }
      if x in AddrsAll(ts) {
        var j :| 0 <= j < |ts| && x in Addrs(ts[j]);
        assert if j == i || j == i + 1 then x in Addrs(t.kids[i]) || x in Addrs(t.kids[i + 1])
               else x in Addrs(t.kids[j]);
      }
    }
  }

  lemma OneKidAddrs(t: Tree, i: nat)
    requires t.Fork? && i + 1 < |t.kids| && t.kids[i].Leaf? == t.kids[i + 1].Leaf? && Distinct(t)
    ensures var t' := OneKid(t, i, Join(t.kids[i], t.kids[i + 1]));
            && Distinct(t') && Addrs(t') == Addrs(t) - {t.kids[i + 1].addr}
  {
    var low, high := t.kids[i], t.kids[i + 1];
    var a := Join(low, high);
    assert Addrs(low) !! Addrs(high);
    JoinAddrs(low, high);
    JoinAddrs(high, low);
    JoinDistinct(low, high);
    assert Addrs(a) == Addrs(low) + Addrs(high) - {high.addr} by {
      assert high.addr !in KidSet(high) by {
        if high.Fork? {
          assert forall j :: 0 <= j < |high.kids| ==> high.addr !in Addrs(high.kids[j]);
        }
      }
      assert high.addr in Addrs(high);
    }
    OneKidDistinct(t, i, a);
  }

  lemma AddrIn(t: Tree)
    ensures t.addr in Addrs(t)
  {
  }

  lemma OneKidApart(t: Tree, i: nat, a: Tree, j: nat)
    requires t.Fork? && i + 1 < |t.kids| && Distinct(t)
    requires Addrs(a) == Addrs(t.kids[i]) + Addrs(t.kids[i + 1]) - {t.kids[i + 1].addr}
    requires j + 1 < |t.kids| && j != i
    ensures var k, ts := if j < i then j else j + 1, Remove(t.kids[i := a], i + 1);
            && |ts| == |t.kids| - 1 && k < |t.kids| && k != i && k != i + 1 && ts[j] == t.kids[k] && ts[i] == a
            && Addrs(ts[j]) !! Addrs(a) && t.kids[i + 1].addr !in Addrs(ts[j])
            && Distinct(ts[j]) && t.addr !in Addrs(ts[j])
  {
    hide Addrs;
    var k := if j < i then j else j + 1;
    AddrIn(t.kids[i + 1]);
    assert Addrs(t.kids[k]) !! Addrs(t.kids[i]) && Addrs(t.kids[k]) !! Addrs(t.kids[i + 1]);
  }

  lemma OneKidMember(t: Tree, i: nat, a: Tree, x: Addr)
    requires t.Fork? && i + 1 < |t.kids| && Distinct(t)
    requires Addrs(a) == Addrs(t.kids[i]) + Addrs(t.kids[i + 1]) - {t.kids[i + 1].addr}
    ensures x in AddrsAll(Remove(t.kids[i := a], i + 1)) <==> x in AddrsAll(t.kids) && x != t.kids[i + 1].addr
  {
    hide Addrs, Distinct;
    var ts, gone := Remove(t.kids[i := a], i + 1), t.kids[i + 1].addr;
    assert ts[i] == a;
    if x in AddrsAll(t.kids) && x != gone {
      var j :| 0 <= j < |t.kids| && x in Addrs(t.kids[j]);
      if j != i && j != i + 1 {
        OneKidApart(t, i, a, if j < i then j else j - 1);
      }
      assert if j == i || j == i + 1 then x in Addrs(ts[i]) else x in Addrs(ts[if j < i then j else j - 1]);
    }
    if x in AddrsAll(ts) {
      var j :| 0 <= j < |ts| && x in Addrs(ts[j]);
      if j != i {
        OneKidApart(t, i, a, j);
      }
      assert if j == i then x in Addrs(t.kids[i]) || x in Addrs(t.kids[i + 1])
             else x in Addrs(t.kids[if j < i then j else j + 1]);
    }
  }

  lemma OneKidDistinct(t: Tree, i: nat, a: Tree)
    requires t.Fork? && i + 1 < |t.kids| && Distinct(t) && Distinct(a)
    requires Addrs(a) == Addrs(t.kids[i]) + Addrs(t.kids[i + 1]) - {t.kids[i + 1].addr}
    ensures Distinct(OneKid(t, i, a)) && Addrs(OneKid(t, i, a)) == Addrs(t) - {t.kids[i + 1].addr}
  {
    var gone := t.kids[i + 1].addr;
    AddrIn(t.kids[i + 1]);
    var ts := Remove(t.kids[i := a], i + 1);
    assert AddrsAll(ts) == AddrsAll(t.kids) - {gone} by {
      forall x ensures x in AddrsAll(ts) <==> x in AddrsAll(t.kids) && x != gone {
        OneKidMember(t, i, a, x);
      }
    }
    OneKidKids(t, i, a);
  }

  lemma OneKidKids(t: Tree, i: nat, a: Tree)
    requires t.Fork? && i + 1 < |t.kids| && Distinct(t) && Distinct(a)
    requires Addrs(a) == Addrs(t.kids[i]) + Addrs(t.kids[i + 1]) - {t.kids[i + 1].addr}
    ensures Distinct(OneKid(t, i, a))
  {
    hide Addrs;
    var ts := Remove(t.kids[i := a], i + 1);
    forall j | 0 <= j < |ts| ensures Distinct(ts[j]) && t.addr !in Addrs(ts[j]) {
      if j != i {
        OneKidApart(t, i, a, j);
      }
    }
    forall j, k | 0 <= j < k < |ts| ensures Addrs(ts[j]) !! Addrs(ts[k]) {
      if j != i {
        OneKidApart(t, i, a, j);
      }
      if k != i {
        OneKidApart(t, i, a, k);
      }
    }
  }

  lemma TwoKidsShape(t: Tree, i: nat, a: Tree, b: Tree, h: nat)
    requires t.Fork? && i + 1 < |t.kids| && Redivides(t.kids[i], t.kids[i + 1], a, b) && HasHeight(t, h)
    ensures HasHeight(TwoKids(t, i, a, b), h)
    ensures First(a) == First(t.kids[i]) && First(TwoKids(t, i, a, b)) == First(t)
    ensures FirstLeaf(TwoKids(t, i, a, b)).addr == FirstLeaf(t).addr
  {
    JoinHeight(t.kids[i], t.kids[i + 1], h - 1);
    JoinHeight(a, b, h - 1);
    JoinFirst(t.kids[i], t.kids[i + 1]);
    JoinFirst(a, b);
  }

  lemma TwoKidsFill(t: Tree, i: nat, a: Tree, b: Tree)
    requires t.Fork? && i + 1 < |t.kids| && Redivides(t.kids[i], t.kids[i + 1], a, b)
    requires forall j :: 0 <= j < |t.kids| && j != i && j != i + 1 ==> Filled(t.kids[j])
    requires KidsFilled(t.kids[i]) && KidsFilled(t.kids[i + 1])
    requires MIN_ENTRIES <= Arity(a) <= FANOUT && MIN_ENTRIES <= Arity(b) <= FANOUT
    ensures KidsFilled(TwoKids(t, i, a, b))
  {
    JoinKidsFilled(t.kids[i], t.kids[i + 1]);
    JoinKidsFilled(a, b);
  }

  lemma OneKidShape(t: Tree, i: nat, h: nat)
    requires t.Fork? && i + 1 < |t.kids| && HasHeight(t, h)
    requires Arity(t.kids[i]) > 0 && Arity(t.kids[i + 1]) > 0
    ensures t.kids[i].Leaf? == t.kids[i + 1].Leaf?
    ensures var a := Join(t.kids[i], t.kids[i + 1]);
            && HasHeight(OneKid(t, i, a), h)
            && First(OneKid(t, i, a)) == First(t)
            && FirstLeaf(OneKid(t, i, a)).addr == FirstLeaf(t).addr
  {
    var low, high := t.kids[i], t.kids[i + 1];
    assert HasHeight(low, h - 1) && HasHeight(high, h - 1);
    JoinHeight(low, high, h - 1);
    JoinFirst(low, high);
    var ts := Remove(t.kids[i := Join(low, high)], i + 1);
    assert forall j :: 0 <= j < |ts| ==>
        ts[j] == if j < i then t.kids[j] else if j == i then Join(low, high) else t.kids[j + 1];
  }

  lemma OneKidFill(t: Tree, i: nat)
    requires t.Fork? && i + 1 < |t.kids| && t.kids[i].Leaf? == t.kids[i + 1].Leaf?
    requires forall j :: 0 <= j < |t.kids| && j != i && j != i + 1 ==> Filled(t.kids[j])
    requires KidsFilled(t.kids[i]) && KidsFilled(t.kids[i + 1])
    requires MIN_ENTRIES <= Arity(t.kids[i]) + Arity(t.kids[i + 1]) <= FANOUT
    ensures KidsFilled(OneKid(t, i, Join(t.kids[i], t.kids[i + 1])))
  {
    var a := Join(t.kids[i], t.kids[i + 1]);
    JoinKidsFilled(t.kids[i], t.kids[i + 1]);
    assert Filled(a);
    var ts := Remove(t.kids[i := a], i + 1);
    assert forall j :: 0 <= j < |ts| ==> ts[j] == if j < i then t.kids[j] else if j == i then a else t.kids[j + 1];
  }

  /** Moving the first entry of the high neighbour down does not move a path that goes through the low one. */
  lemma TwoKidsRankLow(t: Tree, i: nat, a: Tree, b: Tree, x: int, rest: seq<Entry>)
    requires t.Fork? && i + 1 < |t.kids| && Redivides(t.kids[i], t.kids[i + 1], a, b) && Arity(t.kids[i]) <= Arity(a)
    requires Follows(t, [Entry(t.addr, i), Entry(a.addr, x)] + rest)
    ensures var path := [Entry(t.addr, i), Entry(a.addr, x)] + rest;
            Follows(TwoKids(t, i, a, b), path) && Rank(TwoKids(t, i, a, b), path) == Rank(t, path)
  {
    var low, high, q := t.kids[i], t.kids[i + 1], [Entry(a.addr, x)] + rest;
    assert ([Entry(t.addr, i), Entry(a.addr, x)] + rest)[1..] == q;
    assert q[1..] == rest;
    JoinRankLow(low, high, x, rest);
    assert Follows(a, q) by {
      if a.Fork? {
        assert a.kids[x] == Join(a, b).kids[x] == Join(low, high).kids[x] == low.kids[x];
      }
    }
    JoinRankLow(a, b, x, rest);
    assert t.kids[i := a][i + 1 := b][..i] == t.kids[..i];
  }

  /** Moving entries up from the low neighbour shifts a path that goes through the high one. */
  lemma TwoKidsRankHigh(t: Tree, i: nat, a: Tree, b: Tree, x: int, rest: seq<Entry>)
    requires t.Fork? && i + 1 < |t.kids| && Redivides(t.kids[i], t.kids[i + 1], a, b) && Arity(a) <= Arity(t.kids[i])
    requires Follows(t, [Entry(t.addr, i + 1), Entry(b.addr, x)] + rest)
    ensures var y := x + Arity(t.kids[i]) - Arity(a);
            var path, path' := [Entry(t.addr, i + 1), Entry(b.addr, x)] + rest,
                [Entry(t.addr, i + 1), Entry(b.addr, y)] + rest;
            Follows(TwoKids(t, i, a, b), path') && Rank(TwoKids(t, i, a, b), path') == Rank(t, path)
  {
    var low, high, y := t.kids[i], t.kids[i + 1], x + Arity(t.kids[i]) - Arity(a);
    assert ([Entry(t.addr, i + 1), Entry(b.addr, x)] + rest)[1..] == [Entry(b.addr, x)] + rest;
    assert ([Entry(t.addr, i + 1), Entry(b.addr, y)] + rest)[1..] == [Entry(b.addr, y)] + rest;
    JoinRankHigh(low, high, x, rest);
    RedividedHigh(low, high, a, b, x, rest);
    JoinRankHigh(a, b, y, rest);
    KidOffset(t.kids, i);
    KidOffset(t.kids[i := a][i + 1 := b], i);
    assert t.kids[i := a][i + 1 := b][..i] == t.kids[..i];
  }

  lemma RedividedHigh(low: Tree, high: Tree, a: Tree, b: Tree, x: int, rest: seq<Entry>)
    requires Redivides(low, high, a, b) && Arity(a) <= Arity(low) && Follows(high, [Entry(b.addr, x)] + rest)
    ensures Follows(b, [Entry(b.addr, x + Arity(low) - Arity(a))] + rest)
  {
    var y := x + Arity(low) - Arity(a);
    assert ([Entry(b.addr, x)] + rest)[1..] == rest && ([Entry(b.addr, y)] + rest)[1..] == rest;
    JoinArity(low, high);
    JoinArity(a, b);
    if b.Fork? {
      assert b.kids[y] == Join(a, b).kids[Arity(a) + y] == Join(low, high).kids[Arity(low) + x] == high.kids[x];
    }
  }

  lemma KidOffset(ts: seq<Tree>, i: nat)
    requires i < |ts|
    ensures |FlatAll(ts[..i + 1])| == |FlatAll(ts[..i])| + |Flat(ts[i])|
  {
    assert ts[..i + 1] == ts[..i] + [ts[i]];
    FlatAllConcat(ts[..i], [ts[i]]);
    FlatAllOne(ts[i]);
  }

  lemma OneKidRankLow(t: Tree, i: nat, x: int, rest: seq<Entry>)
    requires t.Fork? && i + 1 < |t.kids| && t.kids[i].Leaf? == t.kids[i + 1].Leaf?
    requires Follows(t, [Entry(t.addr, i), Entry(t.kids[i].addr, x)] + rest)
    ensures var t', path := OneKid(t, i, Join(t.kids[i], t.kids[i + 1])),
            [Entry(t.addr, i), Entry(t.kids[i].addr, x)] + rest;
            Follows(t', path) && Rank(t', path) == Rank(t, path)
  {
    var low, high := t.kids[i], t.kids[i + 1];
    assert ([Entry(t.addr, i), Entry(low.addr, x)] + rest)[1..] == [Entry(low.addr, x)] + rest;
    JoinRankLow(low, high, x, rest);
    var ts := Remove(t.kids[i := Join(low, high)], i + 1);
    assert ts[..i] == t.kids[..i] && ts[i] == Join(low, high);
  }

  lemma OneKidRankHigh(t: Tree, i: nat, x: int, rest: seq<Entry>)
    requires t.Fork? && i + 1 < |t.kids| && t.kids[i].Leaf? == t.kids[i + 1].Leaf?
    requires Follows(t, [Entry(t.addr, i + 1), Entry(t.kids[i + 1].addr, x)] + rest)
    ensures var t', y := OneKid(t, i, Join(t.kids[i], t.kids[i + 1])), Arity(t.kids[i]) + x;
            var path' := [Entry(t.addr, i), Entry(t.kids[i].addr, y)] + rest;
            && Follows(t', path')
            && Rank(t', path') == Rank(t, [Entry(t.addr, i + 1), Entry(t.kids[i + 1].addr, x)] + rest)
  {
    var low, high, y := t.kids[i], t.kids[i + 1], Arity(t.kids[i]) + x;
    assert ([Entry(t.addr, i + 1), Entry(high.addr, x)] + rest)[1..] == [Entry(high.addr, x)] + rest;
    assert ([Entry(t.addr, i), Entry(low.addr, y)] + rest)[1..] == [Entry(low.addr, y)] + rest;
    JoinRankHigh(low, high, x, rest);
    var ts := Remove(t.kids[i := Join(low, high)], i + 1);
    assert ts[..i] == t.kids[..i] && ts[i] == Join(low, high);
    KidOffset(t.kids, i);
  }

  // ----- separators -----

  /** The start of a subtree changed: memory holds the new tree once the lowest separator to the left of the path is
      set to the new start. `j` is the step of the path that turns away from the first child for the last time. */
  lemma Reseparate(m: map<Addr, Node>, m1: map<Addr, Node>, t: Tree, p: seq<int>, s: Tree, j: nat)
    requires OnPath(t, p) && Holds(m, t) && Distinct(t) && Holds(m1, s)
    requires s.addr == Sub(t, p).addr && First(s) < UINT64_MAX
    requires Agree(m, m1, Addrs(t) - Addrs(Sub(t, p)))
    requires Distinct(s) && Addrs(s) !! (Addrs(t) - Addrs(Sub(t, p)))
    requires j < |p| && p[j] != 0 && AllZero(p[j + 1..])
    ensures OnPath(t, p[..j])
    ensures var a := Sub(t, p[..j]).addr;
            && a in m && m[a].InnerNode? && 0 < p[j] < |m[a].keys| && a in m1 && m1[a] == m[a]
            && Holds(m1[a := InnerNode(m[a].keys[p[j] := First(s)], m[a].children)], Plug(t, p, s))
  {
    var up, i, down := p[..j], p[j], p[j + 1..];
    assert p == up + ([i] + down) && ([i] + down)[1..] == down;
    OnPathPrefix(t, up, [i] + down);
    PathConcat(t, up, [i] + down);
    var r := Sub(t, up);
    SubHolds(m, t, up);
    SubAddrs(t, up);
    SubAddrs(r, [i] + down);
    assert Sub(t, p) == Sub(r.kids[i], down);
    ReseparateKid(m, m1, r, i, down, s);
    var a := r.addr;
    var m2 := m1[a := InnerNode(m[a].keys[i := First(s)], m[a].children)];
    var r' := Plug(r, [i] + down, s);
    PlugFirst(r, [i] + down, s);
    assert !AllZero([i] + down) by { assert ([i] + down)[0] == i; }
    assert Agree(m, m2, Addrs(t) - Addrs(r)) by { assert a in Addrs(r); }
    Graft(m, m2, t, up, r');
    PlugConcat(t, up, [i] + down, s);
  }

  lemma ReseparateKid(m: map<Addr, Node>, m1: map<Addr, Node>, r: Tree, i: nat, down: seq<int>, s: Tree)
    requires r.Fork? && 0 < i < |r.kids| && OnPath(r.kids[i], down) && AllZero(down)
    requires Holds(m, r) && Distinct(r) && Holds(m1, s)
    requires s.addr == Sub(r.kids[i], down).addr && First(s) < UINT64_MAX
    requires Agree(m, m1, Addrs(r) - Addrs(Sub(r.kids[i], down)))
    requires Distinct(s) && Addrs(s) !! (Addrs(r) - Addrs(Sub(r.kids[i], down)))
    ensures r.addr in m1 && m1[r.addr] == m[r.addr]
    ensures OnPath(r, [i] + down) && Plug(r, [i] + down, s) == Fork(r.addr, r.kids[i := Plug(r.kids[i], down, s)])
    ensures Holds(m1[r.addr := InnerNode(m[r.addr].keys[i := First(s)], m[r.addr].children)], Plug(r, [i] + down, s))
  {
    var k, a := r.kids[i], r.addr;
    assert ([i] + down)[1..] == down;
    AddrsOfKid(r, i);
    SubAddrs(k, down);
    assert a in Addrs(r) && a !in Addrs(k);
    assert Agree(m, m1, Addrs(k) - Addrs(Sub(k, down)));
    Graft(m, m1, k, down, s);
    PlugFirst(k, down, s);
    PlugAddr(k, down, s);
    PlugAddrs(k, down, s);
    var m2 := m1[a := InnerNode(m[a].keys[i := First(s)], m[a].children)];
    NewKey(m, m1, m2, r, i, Plug(k, down, s));
  }

  lemma {:induction false} OnPathPrefix(t: Tree, a: seq<int>, b: seq<int>)
    requires OnPath(t, a + b)
    ensures OnPath(t, a)
    decreases |a|
  {
    if a != [] {
      assert (a + b)[1..] == a[1..] + b;
      OnPathPrefix(t.kids[a[0]], a[1..], b);
    }
  }

  lemma NewKey(m: map<Addr, Node>, m1: map<Addr, Node>, m2: map<Addr, Node>, r: Tree, i: nat, k: Tree)
    requires r.Fork? && 0 < i < |r.kids| && Holds(m, r) && Distinct(r) && Holds(m1, k)
    requires k.addr == r.kids[i].addr && First(k) < UINT64_MAX
    requires Agree(m, m1, Addrs(r) - Addrs(r.kids[i]))
    requires r.addr !in Addrs(k)
    requires m2 == m1[r.addr := InnerNode(m[r.addr].keys[i := First(k)], m[r.addr].children)]
    ensures Holds(m2, Fork(r.addr, r.kids[i := k]))
  {
    var kids := r.kids[i := k];
    forall j | 0 <= j < |kids| ensures Holds(m2, kids[j]) {
      if j == i {
        HoldsFrame(m1, m2, k);
      } else {
        AddrsOfKid(r, j);
        assert Addrs(r.kids[j]) !! Addrs(r.kids[i]) && r.addr !in Addrs(r.kids[j]);
        HoldsFrame(m, m2, r.kids[j]);
      }
    }
  }

  /** Replacing a subtree leaves the address and the number of entries of the nodes above it. */
  lemma {:induction false} SubPlug(t: Tree, q: seq<int>, s: Tree, k: nat)
    requires OnPath(t, q) && k < |q|
    ensures OnPath(t, q[..k]) && OnPath(Plug(t, q, s), q[..k])
    ensures Sub(t, q[..k]).Fork? && Sub(Plug(t, q, s), q[..k]).Fork?
    ensures Sub(Plug(t, q, s), q[..k]).addr == Sub(t, q[..k]).addr
    ensures Arity(Sub(Plug(t, q, s), q[..k])) == Arity(Sub(t, q[..k]))
    decreases k
  {
    if k > 0 {
      SubPlug(t.kids[q[0]], q[1..], s, k - 1);
      assert q[..k][1..] == q[1..][..k - 1];
    }
  }

  // ----- all of it at once -----

  /** Memory holds a tree of height `h`, no two of whose nodes share an address. */
  ghost predicate Stands(m: map<Addr, Node>, t: Tree, h: nat)
  {
    Holds(m, t) && Distinct(t) && HasHeight(t, h)
  }

  /** Replacing a subtree by one of the same height at the same address keeps a standing tree standing. */
  lemma Regraft(m: map<Addr, Node>, m': map<Addr, Node>, t: Tree, h: nat, p: seq<int>, s: Tree, least: nat)
    requires Stands(m, t, h) && OnPath(t, p) && |p| < h && Stands(m', s, h - |p|)
    requires s.addr == Sub(t, p).addr && (First(s) == First(Sub(t, p)) || AllZero(p))
    requires Agree(m, m', Addrs(t) - Addrs(Sub(t, p)))
    requires Addrs(s) !! (Addrs(t) - Addrs(Sub(t, p)))
    ensures var t' := Plug(t, p, s);
            && Stands(m', t', h) && t'.addr == t.addr
            && Addrs(t') == (Addrs(t) - Addrs(Sub(t, p))) + Addrs(s)
            && OnPath(t', p) && Sub(t', p) == s && Left(t', p) == Left(t, p) && Right(t', p) == Right(t, p)
            && Rightmost(t', p) == Rightmost(t, p)
            && Flat(t') == Left(t, p) + Flat(s) + Right(t, p)
            && (FillAround(t, p, least) ==> FillAround(t', p, least))
  {
    Graft(m, m', t, p, s);
    PlugAddrs(t, p, s);
    PlugHeight(t, p, h, s);
    PlugContext(t, p, s);
    FlatPlug(t, p, s);
    PlugAddr(t, p, s);
    if FillAround(t, p, least) {
      FillAroundPlug(t, p, least, s);
    }
  }

  lemma HoldsFork(m: map<Addr, Node>, m': map<Addr, Node>, f: Tree)
    requires f.Fork? && HoldsKids(m', f.addr, f.kids)
    requires forall i :: 0 <= i < |f.kids| ==> Holds(m, f.kids[i])
    requires Agree(m, m', AddrsAll(f.kids))
    ensures Holds(m', f)
  {
    forall i | 0 <= i < |f.kids| ensures Holds(m', f.kids[i]) {
      assert Addrs(f.kids[i]) <= AddrsAll(f.kids);
      HoldsFrame(m, m', f.kids[i]);
    }
  }

  lemma MinsConcat(a: seq<Tree>, b: seq<Tree>)
    ensures Mins(a + b) == Mins(a) + Mins(b) && KidAddrs(a + b) == KidAddrs(a) + KidAddrs(b)
  {
  }

  lemma MinsInsert(ts: seq<Tree>, i: nat, t: Tree)
    requires i <= |ts|
    ensures Mins(Insert(ts, i, t)) == Insert(Mins(ts), i, First(t))
    ensures KidAddrs(Insert(ts, i, t)) == Insert(KidAddrs(ts), i, t.addr)
  {
  }

  lemma MinsSlices(ts: seq<Tree>, i: nat)
    requires i <= |ts|
    ensures Mins(ts[..i]) == Mins(ts)[..i] && Mins(ts[i..]) == Mins(ts)[i..]
    ensures KidAddrs(ts[..i]) == KidAddrs(ts)[..i] && KidAddrs(ts[i..]) == KidAddrs(ts)[i..]
  {
  }

  lemma MinsRemove(ts: seq<Tree>, i: nat)
    requires i < |ts|
    ensures Mins(Remove(ts, i)) == Remove(Mins(ts), i) && KidAddrs(Remove(ts, i)) == Remove(KidAddrs(ts), i)
  {
  }

  lemma FlatAllInsert(ts: seq<Tree>, i: nat, t: Tree)
    requires i <= |ts|
    ensures FlatAll(Insert(ts, i, t)) == FlatAll(ts[..i]) + Flat(t) + FlatAll(ts[i..])
  {
    FlatAllConcat(ts[..i] + [t], ts[i..]);
    FlatAllConcat(ts[..i], [t]);
    FlatAllOne(t);
  }

  lemma InsertDistinct(f: Tree, i: nat, t: Tree)
    requires f.Fork? && i <= |f.kids| && Distinct(f) && Distinct(t) && Addrs(f) !! Addrs(t)
    ensures var f' := Fork(f.addr, Insert(f.kids, i, t));
            Distinct(f') && Addrs(f') == Addrs(f) + Addrs(t)
  {
    InsertAddrs(f.kids, i, t);
    var ts := Insert(f.kids, i, t);
    forall j | 0 <= j < |ts| && j != i ensures Addrs(ts[j]) <= Addrs(f) {
      AddrsOfKid(f, if j < i then j else j - 1);
    }
    assert f.addr in Addrs(f);
    forall j, k | 0 <= j < k < |ts| ensures Addrs(ts[j]) !! Addrs(ts[k]) {
      if j != i && k != i {
        var j', k' := if j < i then j else j - 1, if k < i then k else k - 1;
        assert Addrs(f.kids[j']) !! Addrs(f.kids[k']);
      }
    }
  }

  lemma InsertAddrs(ts: seq<Tree>, i: nat, t: Tree)
    requires i <= |ts|
    ensures AddrsAll(Insert(ts, i, t)) == AddrsAll(ts) + Addrs(t)
  {
    var us := Insert(ts, i, t);
    forall x ensures x in AddrsAll(us) <==> x in AddrsAll(ts) || x in Addrs(t) {
      if x in AddrsAll(ts) {
        var j :| 0 <= j < |ts| && x in Addrs(ts[j]);
        assert us[if j < i then j else j + 1] == ts[j];
      }
      if x in Addrs(t) {
        assert us[i] == t;
      }
    }
  }

  lemma AddrsAllConcat(a: seq<Tree>, b: seq<Tree>)
    ensures AddrsAll(a + b) == AddrsAll(a) + AddrsAll(b)
  {
    var all := a + b;
    forall x ensures x in AddrsAll(all) <==> x in AddrsAll(a) || x in AddrsAll(b) {
      if x in AddrsAll(a) {
        var i :| 0 <= i < |a| && x in Addrs(a[i]);
        assert all[i] == a[i];
      }
      if x in AddrsAll(b) {
        var i :| 0 <= i < |b| && x in Addrs(b[i]);
        assert all[|a| + i] == b[i];
      }
    }
  }

  lemma HoldsParts(m: map<Addr, Node>, a: seq<Tree>, b: seq<Tree>)
    requires forall j :: 0 <= j < |a + b| ==> Holds(m, (a + b)[j])
    ensures forall j :: 0 <= j < |a| ==> Holds(m, a[j])
    ensures forall j :: 0 <= j < |b| ==> Holds(m, b[j])
  {
    hide Holds;
    var all := a + b;
    assert forall j :: 0 <= j < |a| ==> a[j] == all[j];
    assert forall j :: 0 <= j < |b| ==> b[j] == all[|a| + j];
  }
}
