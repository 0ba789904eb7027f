/** Order and size in the B+ tree: what a search step may discard, and how many ranges a tree of given height holds. */
module BPlusOrders {
  import opened Ranges
  import opened BPlusNodes
  import opened BPlusTrees

  ghost predicate AllUpTo(rs: seq<Range>, x: nat)
  {
    forall i :: 0 <= i < |rs| ==> rs[i].start <= x
  }

  ghost predicate AllAbove(rs: seq<Range>, x: nat)
  {
    forall i :: 0 <= i < |rs| ==> x < rs[i].start
  }

  // ----- size -----

  function Pow8(n: nat): (r: nat)
    ensures r >= 1
  {
    if n == 0 then 1 else 8 * Pow8(n - 1)
  }

  /** A filled tree of height `h` lists at least 8^h ranges. */
  lemma {:induction false} FilledSize(t: Tree, h: nat)
    requires Filled(t) && HasHeight(t, h)
    ensures |Flat(t)| >= Pow8(h)
    decreases t, 0
  {
    match t
    case Leaf(_, rs) =>
      assert Pow8(1) == 8 * Pow8(0);
    case Fork(_, kids) =>
      FilledSizeAll(kids, h - 1);
      assert |kids| * Pow8(h - 1) >= 8 * Pow8(h - 1);
  }

  lemma {:induction false} FilledSizeAll(ts: seq<Tree>, h: nat)
    requires forall i :: 0 <= i < |ts| ==> Filled(ts[i]) && HasHeight(ts[i], h)
    ensures |FlatAll(ts)| >= |ts| * Pow8(h)
    decreases ts, 1
  {
    if ts != [] {
      FilledSize(ts[0], h);
      FilledSizeAll(ts[1..], h);
      assert |ts| * Pow8(h) == Pow8(h) + |ts[1..]| * Pow8(h);
    }
  }

  /** A tree of height h >= 2 lists at least 2 * 8^(h-1) ranges. */
  lemma RootSize(t: Tree, h: nat)
    requires FilledRoot(t) && HasHeight(t, h) && h >= 2
    ensures |Flat(t)| >= 2 * Pow8(h - 1)
  {
    FilledSizeAll(t.kids, h - 1);
    assert |t.kids| * Pow8(h - 1) >= 2 * Pow8(h - 1);
  }

  lemma Pow8Monotone(a: nat, b: nat)
    requires a <= b
    ensures Pow8(a) <= Pow8(b)
  {
    if a < b {
      Pow8Monotone(a, b - 1);
    }
  }

  /** The cap on the number of ranges keeps the height at or below eight, and below eight whenever one more range may
      be inserted. */
  lemma HeightBound(t: Tree, h: nat)
    requires FilledRoot(t) && HasHeight(t, h)
    ensures |Flat(t)| < 0x40_0000 ==> h < 8
    ensures |Flat(t)| <= 0x40_0000 ==> h <= 8
  {
    assert Pow8(7) == 0x20_0000 by {
      assert Pow8(3) == 512;
      assert Pow8(6) == 512 * Pow8(3);
    }
    if h >= 8 {
      RootSize(t, h);
      Pow8Monotone(7, h - 1);
    }
    if h >= 9 {
      Pow8Monotone(8, h - 1);
      assert Pow8(8) == 8 * Pow8(7);
    }
  }

  // ----- order -----

  lemma {:induction false} FirstIsHead(t: Tree, h: nat)
    requires Filled(t) && HasHeight(t, h)
    ensures Flat(t) != [] && First(t) == Flat(t)[0].start
    decreases t
  {
    if t.Fork? {
      FirstIsHead(t.kids[0], h - 1);
    }
  }

  lemma AscendingParts(a: seq<Range>, b: seq<Range>, c: seq<Range>)
    requires AscendingStarts(a + b + c)
    ensures AscendingStarts(a) && AscendingStarts(b) && AscendingStarts(c)
    ensures b != [] ==> AllUpTo(a, b[0].start)
    ensures forall i, j :: 0 <= i < |b| && 0 <= j < |c| ==> b[i].start < c[j].start
  {
    var u := a + b + c;
    assert forall i :: 0 <= i < |a| ==> u[i] == a[i];
    assert forall i :: 0 <= i < |b| ==> u[|a| + i] == b[i];
    assert forall i :: 0 <= i < |c| ==> u[|a| + |b| + i] == c[i];
  }

  lemma AscendingKid(ts: seq<Tree>, i: nat)
    requires i < |ts| && AscendingStarts(FlatAll(ts))
    ensures AscendingStarts(Flat(ts[i]))
  {
    FlatAllAround(ts, i);
    AscendingParts(FlatAll(ts[..i]), Flat(ts[i]), FlatAll(ts[i + 1..]));
  }

  ghost predicate AllFilled(ts: seq<Tree>, h: nat)
  {
    forall i :: 0 <= i < |ts| ==> Filled(ts[i]) && HasHeight(ts[i], h)
  }

  lemma FirstsAscend(ts: seq<Tree>, h: nat, i: nat, j: nat)
    requires AllFilled(ts, h) && AscendingStarts(FlatAll(ts)) && i < j < |ts|
    ensures First(ts[i]) < First(ts[j])
  {
    FirstIsHead(ts[i], h);
    FirstIsHead(ts[j], h);
    HeadInside(ts, i);
    HeadInside(ts, j);
    OffsetGrows(ts, i, j);
  }

  lemma OffsetGrows(ts: seq<Tree>, i: nat, j: nat)
    requires i < j < |ts|
    ensures |FlatAll(ts[..i])| + |Flat(ts[i])| <= |FlatAll(ts[..j])|
  {
    KidOffset(ts, i);
    assert ts[..j] == ts[..i + 1] + ts[i + 1..j];
    FlatAllConcat(ts[..i + 1], ts[i + 1..j]);
  }

  lemma HeadInside(ts: seq<Tree>, j: nat)
    requires j < |ts| && Flat(ts[j]) != []
    ensures |FlatAll(ts[..j])| < |FlatAll(ts)| && FlatAll(ts)[|FlatAll(ts[..j])|] == Flat(ts[j])[0]
  {
    FlatAllAround(ts, j);
  }

  lemma MinsAscend(ts: seq<Tree>, h: nat)
    requires AllFilled(ts, h) && AscendingStarts(FlatAll(ts))
    ensures Ascending(Mins(ts))
  {
    forall i, j | 0 <= i < j < |ts| ensures Mins(ts)[i] < Mins(ts)[j] {
      FirstsAscend(ts, h, i, j);
    }
  }

  /** Descending into the last child that starts at or before `x` leaves, on the left, only ranges that start at or
      before `x` and, on the right, only ranges that start after it. */
  lemma StepDown(ts: seq<Tree>, h: nat, n: nat, x: nat)
    requires AllFilled(ts, h) && AscendingStarts(FlatAll(ts)) && n < |ts|
    requires n > 0 ==> First(ts[n]) <= x
    requires n + 1 < |ts| ==> x < First(ts[n + 1])
    ensures AllUpTo(FlatAll(ts[..n]), x) && AllAbove(FlatAll(ts[n + 1..]), x)
  {
    hide First, HasHeight, Flat, FlatAll, AscendingStarts;
    FlatAllAround(ts, n);
    AscendingParts(FlatAll(ts[..n]), Flat(ts[n]), FlatAll(ts[n + 1..]));
    FirstIsHead(ts[n], h);
    NoKids();
    assert n == 0 ==> ts[..n] == [];
    assert n + 1 == |ts| ==> ts[n + 1..] == [];
    if n + 1 < |ts| {
      HeadOfRest(ts, h, n + 1);
      AboveFirst(FlatAll(ts[n + 1..]), x);
    }
  }

  lemma NoKids()
    ensures FlatAll([]) == []
  {
  }

  lemma HeadOfRest(ts: seq<Tree>, h: nat, j: nat)
    requires AllFilled(ts, h) && j < |ts|
    ensures FlatAll(ts[j..]) != [] && FlatAll(ts[j..])[0].start == First(ts[j])
  {
    hide First, HasHeight, Flat;
    FirstIsHead(ts[j], h);
    assert ts[j..][0] == ts[j];
  }

  lemma AboveFirst(rs: seq<Range>, x: nat)
    requires AscendingStarts(rs) && rs != [] && x < rs[0].start
    ensures AllAbove(rs, x)
  {
  }

  lemma AllUpToConcat(a: seq<Range>, b: seq<Range>, x: nat)
    requires AllUpTo(a, x) && AllUpTo(b, x)
    ensures AllUpTo(a + b, x)
  {
  }

  lemma AllAboveConcat(a: seq<Range>, b: seq<Range>, x: nat)
    requires AllAbove(a, x) && AllAbove(b, x)
    ensures AllAbove(a + b, x)
  {
  }

  lemma {:induction false} AscendingSub(t: Tree, p: seq<int>)
    requires OnPath(t, p) && AscendingStarts(Flat(t))
    ensures AscendingStarts(Flat(Sub(t, p)))
    decreases |p|
  {
    if p != [] {
      AscendingKid(t.kids, p[0]);
      AscendingSub(t.kids[p[0]], p[1..]);
    }
  }

  lemma ForkFacts(t: Tree, p: seq<int>, h: nat)
    requires OnPath(t, p) && HasHeight(t, h) && FilledRoot(t) && AscendingStarts(Flat(t)) && |p| + 1 < h
    ensures var s := Sub(t, p);
            && s.Fork? && AllFilled(s.kids, h - |p| - 1) && AscendingStarts(FlatAll(s.kids))
            && 2 <= |s.kids| <= FANOUT && (p != [] ==> MIN_ENTRIES <= |s.kids|)
  {
    SubHeight(t, p, h);
    FilledRootSplits(t, p);
    AscendingSub(t, p);
  }

  lemma LeafFacts(t: Tree, p: seq<int>, h: nat)
    requires OnPath(t, p) && HasHeight(t, h) && FilledRoot(t) && AscendingStarts(Flat(t)) && |p| + 1 == h
    ensures var s := Sub(t, p);
            && s.Leaf? && AscendingStarts(s.rs)
            && 1 <= |s.rs| <= FANOUT && (p != [] ==> MIN_ENTRIES <= |s.rs|)
  {
    SubHeight(t, p, h);
    FilledRootSplits(t, p);
    AscendingSub(t, p);
  }
}
