/** Rebalancing two neighbours of the B+ tree: an entry is borrowed, or the high one is merged into the low one. */
module BPlusRebalances {
  import opened Basics
  import opened Ranges
  import opened BPlusNodes
  import opened BPlusTrees

  // ----- slots -----

  lemma AppendSlot(slots: seq<Range>, rs: seq<Range>, r: Range)
    requires LeafHolds(slots, rs) && |rs| < FANOUT && r.start < UINT64_MAX
    ensures LeafHolds(slots[|rs| := r], rs + [r])
  {
  }

  lemma AppendEntry(keys: seq<nat>, children: seq<Addr>, mins: seq<nat>, kids: seq<Addr>, key: nat, child: Addr)
    requires InnerHolds(keys, children, mins, kids) && |kids| < FANOUT && key < UINT64_MAX
    ensures InnerHolds(keys[|kids| := key], children[|kids| := child], mins + [key], kids + [child])
  {
  }

  /** The first key is unused. */
  lemma FirstKeyUnused(keys: seq<nat>, children: seq<Addr>, mins: seq<nat>, kids: seq<Addr>, mins': seq<nat>)
    requires InnerHolds(keys, children, mins, kids) && |mins'| == |mins| && mins'[1..] == mins[1..]
    ensures InnerHolds(keys, children, mins', kids)
  {
    assert forall i :: 1 <= i < |mins| ==> mins'[i] == mins'[1..][i - 1] == mins[1..][i - 1] == mins[i];
  }

  lemma FirstChild(keys: seq<nat>, children: seq<Addr>, mins: seq<nat>, kids: seq<Addr>, child: Addr)
    requires InnerHolds(keys, children, mins, kids)
    ensures InnerHolds(keys, children[0 := child], mins, kids[0 := child])
  {
  }

  lemma SetKey(keys: seq<nat>, children: seq<Addr>, mins: seq<nat>, kids: seq<Addr>, i: nat, key: nat)
    requires InnerHolds(keys, children, mins, kids) && 1 <= i < |kids| && key < UINT64_MAX
    ensures InnerHolds(keys[i := key], children, mins[i := key], kids)
  {
  }

  // ----- borrowing, in the slots of the two nodes -----

  method ShiftLeafDown(low: seq<Range>, high: seq<Range>, ghost ls: seq<Range>, ghost hs: seq<Range>)
    returns (low': seq<Range>, high': seq<Range>)
    requires LeafHolds(low, ls) && LeafHolds(high, hs) && |ls| == MIN_ENTRIES - 1 && |hs| > 1
    ensures LeafHolds(low', ls + [hs[0]]) && LeafHolds(high', hs[1..])
  {
    var removed;
    high', removed := RemoveRangeAt(high, 0, hs);
    AppendSlot(low, ls, removed);
    low' := low[MIN_ENTRIES - 1 := removed];
    assert Remove(hs, 0) == hs[1..];
  }

  /** Searching for the greatest value counts the ranges of a leaf. */
  lemma CountsAll(slots: seq<Range>, rs: seq<Range>)
    requires LeafHolds(slots, rs) && AscendingStarts(rs)
    ensures LeafCountLe(slots, UINT64_MAX - 1) == |rs|
  {
    hide LeafCountLe;
    LeafSearch(slots, rs, UINT64_MAX - 1);
    assert rs != [] ==> rs[|rs| - 1].start <= UINT64_MAX - 1;
  }

  method ShiftLeafUp(low: seq<Range>, high: seq<Range>, ghost ls: seq<Range>, ghost hs: seq<Range>)
    returns (low': seq<Range>, high': seq<Range>)
    requires LeafHolds(low, ls) && LeafHolds(high, hs) && AscendingStarts(ls) && |ls| > 1 && |hs| < FANOUT
    ensures LeafHolds(low', ls[..|ls| - 1]) && LeafHolds(high', [ls[|ls| - 1]] + hs)
  {
    hide LeafCountLe, AscendingStarts;
    CountsAll(low, ls);
    var n := LeafCountLe(low, UINT64_MAX - 1);
    var removed;
    low', removed := RemoveRangeAt(low, n - 1, ls);
    high' := InsertRangeAt(high, 0, removed, hs);
    assert Remove(ls, n - 1) == ls[..|ls| - 1];
    assert Insert(hs, 0, removed) == [removed] + hs;
  }

  method ShiftInnerDown(low: Node, high: Node, sep: nat, ghost lm: seq<nat>, ghost lk: seq<Addr>, ghost hm: seq<nat>,
                        ghost hk: seq<Addr>)
    returns (low': Node, high': Node, sep': nat)
    requires low.InnerNode? && high.InnerNode? && InnerHolds(low.keys, low.children, lm, lk)
    requires InnerHolds(high.keys, high.children, hm, hk)
    requires |lk| == MIN_ENTRIES - 1 && |hk| > 1 && sep == hm[0] < UINT64_MAX
    ensures low'.InnerNode? && InnerHolds(low'.keys, low'.children, lm + [hm[0]], lk + [hk[0]])
    ensures high'.InnerNode? && InnerHolds(high'.keys, high'.children, hm[1..], hk[1..])
    ensures sep' == hm[1] < UINT64_MAX
  {
    AppendEntry(low.keys, low.children, lm, lk, sep, high.children[0]);
    low' := InnerNode(low.keys[MIN_ENTRIES - 1 := sep], low.children[MIN_ENTRIES - 1 := high.children[0]]);
    sep' := high.keys[1];
    var moved := high.children[0 := high.children[1]];
    FirstChild(high.keys, high.children, hm, hk, high.children[1]);
    var ks, cs, _ := RemoveEntryAt(high.keys, moved, 1, hm, hk[0 := hk[1]]);
    assert Remove(hk[0 := hk[1]], 1) == hk[1..];
    assert Remove(hm, 1)[1..] == hm[1..][1..];
    FirstKeyUnused(ks, cs, Remove(hm, 1), hk[1..], hm[1..]);
    high' := InnerNode(ks, cs);
  }

  method ShiftInnerUp(low: Node, high: Node, sep: nat, ghost lm: seq<nat>, ghost lk: seq<Addr>, ghost hm: seq<nat>,
                      ghost hk: seq<Addr>)
    returns (low': Node, high': Node, sep': nat)
    requires low.InnerNode? && high.InnerNode? && InnerHolds(low.keys, low.children, lm, lk) && Ascending(lm)
    requires InnerHolds(high.keys, high.children, hm, hk)
    requires |lk| > 1 && |hk| < FANOUT && sep == hm[0] < UINT64_MAX
    ensures low'.InnerNode? && InnerHolds(low'.keys, low'.children, lm[..|lm| - 1], lk[..|lk| - 1])
    ensures high'.InnerNode? && InnerHolds(high'.keys, high'.children, [lm[|lm| - 1]] + hm, [lk[|lk| - 1]] + hk)
    ensures sep' == lm[|lm| - 1] < UINT64_MAX
  {
    KeySearch(low.keys, low.children, lm, lk, UINT64_MAX - 1);
    assert forall i :: 1 <= i < |lm| ==> lm[i] <= UINT64_MAX - 1;
    var n := KeysCountLe(low.keys, UINT64_MAX - 1) + 1;
    assert n == |lk|;
    var hks, hcs := InsertEntryAt(high.keys, high.children, 1, sep, high.children[0], hm, hk);
    var child := low.children[n - 1];
    FirstChild(hks, hcs, Insert(hm, 1, sep), Insert(hk, 1, hk[0]), child);
    assert Insert(hk, 1, hk[0])[0 := child] == [child] + hk;
    assert Insert(hm, 1, sep)[1..] == hm == ([lm[|lm| - 1]] + hm)[1..];
    FirstKeyUnused(hks, hcs[0 := child], Insert(hm, 1, sep), [child] + hk, [lm[|lm| - 1]] + hm);
    high' := InnerNode(hks, hcs[0 := child]);
    var lks, lcs, removed := RemoveEntryAt(low.keys, low.children, n - 1, lm, lk);
    sep' := removed;
    assert Remove(lm, n - 1) == lm[..|lm| - 1] && Remove(lk, n - 1) == lk[..|lk| - 1];
    low' := InnerNode(lks, lcs);
  }

  // ----- merging -----

  method MergeLeafSlots(low: seq<Range>, high: seq<Range>, numLow: nat, numHigh: nat, ghost ls: seq<Range>,
                        ghost hs: seq<Range>)
    returns (r: seq<Range>)
    requires LeafHolds(low, ls) && LeafHolds(high, hs) && |ls| == numLow && |hs| == numHigh
             && numLow + numHigh <= FANOUT
    ensures LeafHolds(r, ls + hs)
  {
    r := low;
    for i := 0 to numHigh
      invariant LeafHolds(r, ls + hs[..i])
    {
      assert hs[..i + 1] == hs[..i] + [hs[i]];
      assert ls + hs[..i] + [hs[i]] == ls + hs[..i + 1];
      AppendSlot(r, ls + hs[..i], high[i]);
      r := r[numLow + i := high[i]];
    }
    assert hs[..numHigh] == hs;
  }

  method MergeInnerSlots(low: Node, high: Node, sep: nat, numLow: nat, numHigh: nat,
                         ghost lm: seq<nat>, ghost lk: seq<Addr>, ghost hm: seq<nat>, ghost hk: seq<Addr>)
    returns (r: Node)
    requires low.InnerNode? && high.InnerNode? && InnerHolds(low.keys, low.children, lm, lk)
    requires InnerHolds(high.keys, high.children, hm, hk)
    requires |lk| == numLow && |hk| == numHigh && numLow + numHigh <= FANOUT && sep == hm[0] < UINT64_MAX
    ensures r.InnerNode? && InnerHolds(r.keys, r.children, lm + hm, lk + hk)
  {
    AppendEntry(low.keys, low.children, lm, lk, sep, high.children[0]);
    var ks: seq<nat>, cs: seq<Addr> := low.keys[numLow := sep], low.children[numLow := high.children[0]];
    assert hm[..1] == [hm[0]] && hk[..1] == [hk[0]];
    for i := 1 to numHigh
      invariant InnerHolds(ks, cs, lm + hm[..i], lk + hk[..i])
    {
      assert lm + hm[..i] + [hm[i]] == lm + hm[..i + 1] && lk + hk[..i] + [hk[i]] == lk + hk[..i + 1];
      AppendEntry(ks, cs, lm + hm[..i], lk + hk[..i], high.keys[i], high.children[i]);
      ks := ks[numLow + i := high.keys[i]];
      cs := cs[numLow + i := high.children[i]];
    }
    assert hm[..numHigh] == hm && hk[..numHigh] == hk;
    r := InnerNode(ks, cs);
  }

  // ----- in memory -----

  /** The two neighbours at `i` and `i + 1` of the parent `f` in memory, and the parent itself. */
  ghost predicate Neighbours(m: map<Addr, Node>, f: Tree, i: nat)
  {
    && f.Fork? && i + 1 < |f.kids| && Holds(m, f) && Distinct(f)
    && f.kids[i].Leaf? == f.kids[i + 1].Leaf?
    && Arity(f.kids[i]) > 0 && Arity(f.kids[i + 1]) > 0
  }

  lemma NeighbourAddrs(m: map<Addr, Node>, f: Tree, i: nat)
    requires Neighbours(m, f, i)
    ensures var low, high := f.kids[i].addr, f.kids[i + 1].addr;
            && low != high && low != f.addr && high != f.addr && low in Addrs(f) && high in Addrs(f)
            && f.addr in Addrs(f)
            && low in m && high in m && HoldsKids(m, f.addr, f.kids)
            && Holds(m, f.kids[i]) && Holds(m, f.kids[i + 1])
            && m[f.addr].children[i] == low && m[f.addr].children[i + 1] == high
            && m[f.addr].keys[i + 1] == First(f.kids[i + 1])
  {
    var low, high := f.kids[i], f.kids[i + 1];
    assert Holds(m, low) && Holds(m, high);
    assert low.addr in Addrs(low) && high.addr in Addrs(high) && Addrs(low) !! Addrs(high);
    AddrsOfKid(f, i);
    AddrsOfKid(f, i + 1);
    assert KidAddrs(f.kids)[i] == low.addr && KidAddrs(f.kids)[i + 1] == high.addr
        && Mins(f.kids)[i + 1] == First(high);
  }

  /** Memory after the entries of two neighbours were divided in another way. */
  ghost predicate Redivided(m: map<Addr, Node>, m': map<Addr, Node>, f: Tree, i: nat, a: Tree, b: Tree)
    requires f.Fork? && i + 1 < |f.kids|
  {
    && Redivides(f.kids[i], f.kids[i + 1], a, b)
    && Holds(m', TwoKids(f, i, a, b)) && m'.Keys == m.Keys && AgreeOff(m, m', Addrs(f))
  }

  /** Memory after the high neighbour was merged into the low one and freed. */
  ghost predicate Merged(m: map<Addr, Node>, m': map<Addr, Node>, f: Tree, i: nat)
    requires f.Fork? && i + 1 < |f.kids| && f.kids[i].Leaf? == f.kids[i + 1].Leaf?
  {
    && Holds(m', OneKid(f, i, Join(f.kids[i], f.kids[i + 1])))
    && Drops(m, m', f.kids[i + 1].addr) && AgreeOff(m, m', Addrs(f))
  }

  lemma OtherKids(m: map<Addr, Node>, m': map<Addr, Node>, f: Tree, i: nat, j: nat)
    requires Neighbours(m, f, i) && j < |f.kids| && j != i && j != i + 1
    requires AgreeOff(m, m', {f.kids[i].addr, f.kids[i + 1].addr, f.addr})
    ensures Holds(m', f.kids[j])
  {
    var low, high := f.kids[i], f.kids[i + 1];
    assert low.addr in Addrs(low) && high.addr in Addrs(high);
    assert Addrs(f.kids[j]) !! Addrs(low) && Addrs(f.kids[j]) !! Addrs(high) && f.addr !in Addrs(f.kids[j]);
    HoldsFrame(m, m', f.kids[j]);
  }

  /** The kids of the two neighbours themselves are not touched. */
  lemma GrandKids(m: map<Addr, Node>, m': map<Addr, Node>, f: Tree, i: nat)
    requires Neighbours(m, f, i) && f.kids[i].Fork?
    requires AgreeOff(m, m', {f.kids[i].addr, f.kids[i + 1].addr, f.addr})
    ensures var all := Join(f.kids[i], f.kids[i + 1]).kids; forall j :: 0 <= j < |all| ==> Holds(m', all[j])
  {
    var low, high := f.kids[i], f.kids[i + 1];
    var all := low.kids + high.kids;
    forall j | 0 <= j < |all| ensures Holds(m', all[j]) {
      GrandKid(m, m', f, i, if j < |low.kids| then i else i + 1, if j < |low.kids| then j else j - |low.kids|);
    }
  }

  lemma GrandKid(m: map<Addr, Node>, m': map<Addr, Node>, f: Tree, i: nat, j: nat, k: nat)
    requires Neighbours(m, f, i) && (j == i || j == i + 1) && f.kids[j].Fork? && k < |f.kids[j].kids|
    requires AgreeOff(m, m', {f.kids[i].addr, f.kids[i + 1].addr, f.addr})
    ensures Holds(m', f.kids[j].kids[k])
  {
    var low, high, s := f.kids[i], f.kids[i + 1], f.kids[j];
    assert Holds(m, s) && Distinct(s);
    AddrsOfKid(s, k);
    assert low.addr in Addrs(low) && high.addr in Addrs(high) && Addrs(low) !! Addrs(high);
    assert s.addr !in Addrs(s.kids[k]) && f.addr !in Addrs(s);
    HoldsFrame(m, m', s.kids[k]);
  }

  lemma RedividedHolds(m: map<Addr, Node>, m': map<Addr, Node>, f: Tree, i: nat, a: Tree, b: Tree)
    requires Neighbours(m, f, i) && Redivides(f.kids[i], f.kids[i + 1], a, b) && Holds(m', a) && Holds(m', b)
    requires HoldsKids(m', f.addr, f.kids[i := a][i + 1 := b])
    requires m'.Keys == m.Keys && AgreeOff(m, m', {f.kids[i].addr, f.kids[i + 1].addr, f.addr})
    ensures Redivided(m, m', f, i, a, b)
  {
    NeighbourAddrs(m, f, i);
    var ts := f.kids[i := a][i + 1 := b];
    forall j | 0 <= j < |ts| ensures Holds(m', ts[j]) {
      if j != i && j != i + 1 {
        OtherKids(m, m', f, i, j);
      }
    }
  }

  lemma HoldFromGrandKids(m: map<Addr, Node>, m': map<Addr, Node>, f: Tree, i: nat, a: Tree, b: Tree)
    requires Neighbours(m, f, i) && f.kids[i].Fork? && a.Fork? && b.Fork?
    requires a.kids + b.kids == f.kids[i].kids + f.kids[i + 1].kids
    requires AgreeOff(m, m', {f.kids[i].addr, f.kids[i + 1].addr, f.addr})
    requires HoldsKids(m', a.addr, a.kids) && HoldsKids(m', b.addr, b.kids)
    ensures Holds(m', a) && Holds(m', b)
  {
    GrandKids(m, m', f, i);
    assert Join(f.kids[i], f.kids[i + 1]).kids == a.kids + b.kids;
    HoldsParts(m', a.kids, b.kids);
  }

  lemma ShiftedMins(ls: seq<Tree>, hs: seq<Tree>)
    requires hs != []
    ensures Mins(ls + [hs[0]]) == Mins(ls) + [Mins(hs)[0]] && KidAddrs(ls + [hs[0]]) == KidAddrs(ls) + [KidAddrs(hs)[0]]
    ensures Mins(hs[1..]) == Mins(hs)[1..] && KidAddrs(hs[1..]) == KidAddrs(hs)[1..]
    ensures ls + [hs[0]] + hs[1..] == ls + hs
  {
  }

  lemma SepSet(m: map<Addr, Node>, f: Tree, i: nat, a: Tree, b: Tree, sep: nat)
    requires Neighbours(m, f, i) && HoldsKids(m, f.addr, f.kids)
    requires a.addr == f.kids[i].addr && b.addr == f.kids[i + 1].addr && First(a) == First(f.kids[i])
    requires sep == First(b) < UINT64_MAX
    ensures var n, ts := m[f.addr], f.kids[i := a][i + 1 := b];
            InnerHolds(n.keys[i + 1 := sep], n.children, Mins(ts), KidAddrs(ts))
  {
    var n, ts := m[f.addr], f.kids[i := a][i + 1 := b];
    SetKey(n.keys, n.children, Mins(f.kids), KidAddrs(f.kids), i + 1, sep);
    assert Mins(ts) == Mins(f.kids)[i + 1 := sep];
    assert KidAddrs(ts) == KidAddrs(f.kids);
  }

  method BorrowFromHigh(m: map<Addr, Node>, parent: Addr, isLeaf: bool, i: nat, ghost f: Tree)
    returns (m': map<Addr, Node>, ghost a: Tree, ghost b: Tree)
    requires Neighbours(m, f, i) && parent == f.addr && isLeaf == f.kids[i].Leaf?
    requires Arity(f.kids[i]) == MIN_ENTRIES - 1 && Arity(f.kids[i + 1]) > 1
    ensures Redivided(m, m', f, i, a, b) && Arity(a) == MIN_ENTRIES && Arity(b) == Arity(f.kids[i + 1]) - 1
  {
    if isLeaf {
      m', a, b := BorrowLeafFromHigh(m, parent, i, f);
    } else {
      m', a, b := BorrowInnerFromHigh(m, parent, i, f);
    }
  }

  method BorrowLeafFromHigh(m: map<Addr, Node>, parent: Addr, i: nat, ghost f: Tree)
    returns (m': map<Addr, Node>, ghost a: Tree, ghost b: Tree)
    requires Neighbours(m, f, i) && parent == f.addr && f.kids[i].Leaf?
    requires Arity(f.kids[i]) == MIN_ENTRIES - 1 && Arity(f.kids[i + 1]) > 1
    ensures Redivided(m, m', f, i, a, b) && Arity(a) == MIN_ENTRIES && Arity(b) == Arity(f.kids[i + 1]) - 1
  {
    NeighbourAddrs(m, f, i);
    var low, high := m[parent].children[i], m[parent].children[i + 1];
    ghost var ls, hs := f.kids[i], f.kids[i + 1];
    var l, h := ShiftLeafDown(m[low].ranges, m[high].ranges, ls.rs, hs.rs);
    a, b := Leaf(low, ls.rs + [hs.rs[0]]), Leaf(high, hs.rs[1..]);
    SepSet(m, f, i, a, b, h[0].start);
    m' := m[low := LeafNode(l)][high := LeafNode(h)]
           [parent := InnerNode(m[parent].keys[i + 1 := h[0].start], m[parent].children)];
    assert ls.rs + hs.rs == a.rs + b.rs;
    RedividedHolds(m, m', f, i, a, b);
  }

  method BorrowInnerFromHigh(m: map<Addr, Node>, parent: Addr, i: nat, ghost f: Tree)
    returns (m': map<Addr, Node>, ghost a: Tree, ghost b: Tree)
    requires Neighbours(m, f, i) && parent == f.addr && f.kids[i].Fork?
    requires Arity(f.kids[i]) == MIN_ENTRIES - 1 && Arity(f.kids[i + 1]) > 1
    ensures Redivided(m, m', f, i, a, b) && Arity(a) == MIN_ENTRIES && Arity(b) == Arity(f.kids[i + 1]) - 1
  {
    NeighbourAddrs(m, f, i);
    var low, high := m[parent].children[i], m[parent].children[i + 1];
    ghost var ls, hs := f.kids[i], f.kids[i + 1];
    var l, h, sep := ShiftInnerDown(m[low], m[high], m[parent].keys[i + 1],
                                    Mins(ls.kids), KidAddrs(ls.kids), Mins(hs.kids), KidAddrs(hs.kids));
    a, b := Fork(low, ls.kids + [hs.kids[0]]), Fork(high, hs.kids[1..]);
    SepSet(m, f, i, a, b, sep);
    m' := m[low := l][high := h][parent := InnerNode(m[parent].keys[i + 1 := sep], m[parent].children)];
    ShiftedMins(ls.kids, hs.kids);
    HoldFromGrandKids(m, m', f, i, a, b);
    RedividedHolds(m, m', f, i, a, b);
  }

  lemma RaisedMins(ls: seq<Tree>, hs: seq<Tree>)
    requires ls != []
    ensures var n := |ls| - 1;
            && Mins(ls[..n]) == Mins(ls)[..n] && KidAddrs(ls[..n]) == KidAddrs(ls)[..n]
            && Mins([ls[n]] + hs) == [Mins(ls)[n]] + Mins(hs)
            && KidAddrs([ls[n]] + hs) == [KidAddrs(ls)[n]] + KidAddrs(hs)
            && ls[..n] + ([ls[n]] + hs) == ls + hs
  {
  }

  method BorrowFromLow(m: map<Addr, Node>, parent: Addr, isLeaf: bool, i: nat, ghost f: Tree)
    returns (m': map<Addr, Node>, ghost a: Tree, ghost b: Tree)
    requires Neighbours(m, f, i) && parent == f.addr && isLeaf == f.kids[i].Leaf?
    requires Arity(f.kids[i]) > 1 && Arity(f.kids[i + 1]) < FANOUT
    requires if isLeaf then AscendingStarts(f.kids[i].rs) else Ascending(Mins(f.kids[i].kids))
    ensures Redivided(m, m', f, i, a, b) && Arity(a) == Arity(f.kids[i]) - 1 && Arity(b) == Arity(f.kids[i + 1]) + 1
  {
    if isLeaf {
      m', a, b := BorrowLeafFromLow(m, parent, i, f);
    } else {
      m', a, b := BorrowInnerFromLow(m, parent, i, f);
    }
  }

  method BorrowLeafFromLow(m: map<Addr, Node>, parent: Addr, i: nat, ghost f: Tree)
    returns (m': map<Addr, Node>, ghost a: Tree, ghost b: Tree)
    requires Neighbours(m, f, i) && parent == f.addr && f.kids[i].Leaf?
    requires Arity(f.kids[i]) > 1 && Arity(f.kids[i + 1]) < FANOUT && AscendingStarts(f.kids[i].rs)
    ensures Redivided(m, m', f, i, a, b) && Arity(a) == Arity(f.kids[i]) - 1 && Arity(b) == Arity(f.kids[i + 1]) + 1
  {
    NeighbourAddrs(m, f, i);
    var low, high := m[parent].children[i], m[parent].children[i + 1];
    ghost var ls, hs := f.kids[i], f.kids[i + 1];
    ghost var n := |ls.rs| - 1;
    var l, h := ShiftLeafUp(m[low].ranges, m[high].ranges, ls.rs, hs.rs);
    a, b := Leaf(low, ls.rs[..n]), Leaf(high, [ls.rs[n]] + hs.rs);
    SepSet(m, f, i, a, b, h[0].start);
    m' := m[low := LeafNode(l)][high := LeafNode(h)]
           [parent := InnerNode(m[parent].keys[i + 1 := h[0].start], m[parent].children)];
    assert a.rs + b.rs == ls.rs + hs.rs;
    RedividedHolds(m, m', f, i, a, b);
  }

  method BorrowInnerFromLow(m: map<Addr, Node>, parent: Addr, i: nat, ghost f: Tree)
    returns (m': map<Addr, Node>, ghost a: Tree, ghost b: Tree)
    requires Neighbours(m, f, i) && parent == f.addr && f.kids[i].Fork?
    requires Arity(f.kids[i]) > 1 && Arity(f.kids[i + 1]) < FANOUT && Ascending(Mins(f.kids[i].kids))
    ensures Redivided(m, m', f, i, a, b) && Arity(a) == Arity(f.kids[i]) - 1 && Arity(b) == Arity(f.kids[i + 1]) + 1
  {
    hide Distinct, Redivided;
    NeighbourAddrs(m, f, i);
    var low, high := m[parent].children[i], m[parent].children[i + 1];
    ghost var ls, hs := f.kids[i], f.kids[i + 1];
    ghost var n := |ls.kids| - 1;
    var l, h, sep := ShiftInnerUp(m[low], m[high], m[parent].keys[i + 1],
                                  Mins(ls.kids), KidAddrs(ls.kids), Mins(hs.kids), KidAddrs(hs.kids));
    a, b := Fork(low, ls.kids[..n]), Fork(high, [ls.kids[n]] + hs.kids);
    SepSet(m, f, i, a, b, sep);
    m' := m[low := l][high := h][parent := InnerNode(m[parent].keys[i + 1 := sep], m[parent].children)];
    RaisedMins(ls.kids, hs.kids);
    HoldFromGrandKids(m, m', f, i, a, b);
    RedividedHolds(m, m', f, i, a, b);
  }

  lemma EntryGone(m: map<Addr, Node>, f: Tree, i: nat, a: Tree, ks: seq<nat>, cs: seq<Addr>)
    requires Neighbours(m, f, i) && a.addr == f.kids[i].addr && First(a) == First(f.kids[i])
    requires InnerHolds(ks, cs, Remove(Mins(f.kids), i + 1), Remove(KidAddrs(f.kids), i + 1))
    ensures var ts := Remove(f.kids[i := a], i + 1); InnerHolds(ks, cs, Mins(ts), KidAddrs(ts))
  {
    var us := f.kids[i := a];
    assert Mins(us) == Mins(f.kids) && KidAddrs(us) == KidAddrs(f.kids);
    MinsRemove(us, i + 1);
  }

  lemma MergedHolds(m: map<Addr, Node>, m': map<Addr, Node>, f: Tree, i: nat)
    requires Neighbours(m, f, i)
    requires var a := Join(f.kids[i], f.kids[i + 1]);
             Holds(m', a) && HoldsKids(m', f.addr, Remove(f.kids[i := a], i + 1))
    requires Drops(m, m', f.kids[i + 1].addr)
    requires AgreeOff(m, m', {f.kids[i].addr, f.kids[i + 1].addr, f.addr})
    ensures Merged(m, m', f, i)
  {
    NeighbourAddrs(m, f, i);
    var a := Join(f.kids[i], f.kids[i + 1]);
    var ts := Remove(f.kids[i := a], i + 1);
    forall j | 0 <= j < |ts| ensures Holds(m', ts[j]) {
      if j != i {
        OtherKids(m, m', f, i, if j < i then j else j + 1);
      }
    }
  }

  /** The node that takes in the entries of both neighbours. */
  method MergedNode(m: map<Addr, Node>, parent: Addr, isLeaf: bool, i: nat, numLow: nat, ghost f: Tree)
    returns (node: Node)
    requires Neighbours(m, f, i) && parent == f.addr && isLeaf == f.kids[i].Leaf?
    requires Arity(f.kids[i]) == numLow && Arity(f.kids[i]) + Arity(f.kids[i + 1]) == 2 * MIN_ENTRIES - 1
    ensures isLeaf ==> node.LeafNode? && LeafHolds(node.ranges, f.kids[i].rs + f.kids[i + 1].rs)
    ensures !isLeaf ==>
              var ks := f.kids[i].kids + f.kids[i + 1].kids;
              node.InnerNode? && InnerHolds(node.keys, node.children, Mins(ks), KidAddrs(ks))
  {
    hide Distinct, Flat, Filled, LeafHolds, Addrs;
    NeighbourAddrs(m, f, i);
    var low, high := m[parent].children[i], m[parent].children[i + 1];
    var numHigh := 2 * MIN_ENTRIES - 1 - numLow;
    ghost var ls, hs := f.kids[i], f.kids[i + 1];
    if isLeaf {
      var slots := MergeLeafSlots(m[low].ranges, m[high].ranges, numLow, numHigh, ls.rs, hs.rs);
      node := LeafNode(slots);
    } else {
      node := MergeInnerSlots(m[low], m[high], m[parent].keys[i + 1], numLow, numHigh,
                              Mins(ls.kids), KidAddrs(ls.kids), Mins(hs.kids), KidAddrs(hs.kids));
      MinsConcat(ls.kids, hs.kids);
    }
  }

  method Merge(m: map<Addr, Node>, parent: Addr, isLeaf: bool, i: nat, numLow: nat, ghost f: Tree)
    returns (m': map<Addr, Node>)
    requires Neighbours(m, f, i) && parent == f.addr && isLeaf == f.kids[i].Leaf?
    requires Arity(f.kids[i]) == numLow && Arity(f.kids[i]) + Arity(f.kids[i + 1]) == 2 * MIN_ENTRIES - 1
    ensures Merged(m, m', f, i)
  {
    hide Distinct, Merged, Flat, Filled, LeafHolds;
    NeighbourAddrs(m, f, i);
    var low, high := m[parent].children[i], m[parent].children[i + 1];
    ghost var a := Join(f.kids[i], f.kids[i + 1]);
    var node := MergedNode(m, parent, isLeaf, i, numLow, f);
    var ks, cs, _ := RemoveEntryAt(m[parent].keys, m[parent].children, i + 1, Mins(f.kids), KidAddrs(f.kids));
    EntryGone(m, f, i, a, ks, cs);
    m' := m[low := node][parent := InnerNode(ks, cs)] - {high};
    if !isLeaf {
      GrandKids(m, m', f, i);
    }
    MergedHolds(m, m', f, i);
  }
}
