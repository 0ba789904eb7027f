/** The nodes of the B+ tree of received ranges (lib/bplus_ranges.c): sixteen slots, packed at the front, the unused
    ones holding UINT64_MAX, searched by fixed-step binary search and edited by shifting. */
module BPlusNodes {
  import opened Basics
  import opened Ranges

  const FANOUT: nat := 16
  const MIN_ENTRIES: nat := 8
  const EMPTY_RANGE: Range := Range(UINT64_MAX, UINT64_MAX)

  /** Where a node lives in memory. */
  type Addr = nat

  datatype Node =
    | LeafNode(ranges: seq<Range>)
    | InnerNode(keys: seq<nat>, children: seq<Addr>)

  function Insert<T>(s: seq<T>, i: nat, x: T): (r: seq<T>)
    requires i <= |s|
    ensures |r| == |s| + 1
  {
    s[..i] + [x] + s[i..]
  }

  function Remove<T>(s: seq<T>, i: nat): (r: seq<T>)
    requires i < |s|
    ensures |r| == |s| - 1
  {
    s[..i] + s[i + 1..]
  }

  /** The sixteen slots of a leaf hold exactly the ranges `rs`. */
  ghost predicate LeafHolds(slots: seq<Range>, rs: seq<Range>)
  {
    && |slots| == FANOUT
    && |rs| <= FANOUT
    && (forall i :: 0 <= i < |rs| ==> slots[i] == rs[i] && rs[i].start < UINT64_MAX)
    && (forall i :: |rs| <= i < FANOUT ==> slots[i] == EMPTY_RANGE)
  }

  /** The slots of a non-leaf node hold exactly the children `kids`, whose smallest starts are `mins`; slot 0 of the
      keys is unused. */
  ghost predicate InnerHolds(keys: seq<nat>, children: seq<Addr>, mins: seq<nat>, kids: seq<Addr>)
  {
    && |keys| == |children| == FANOUT
    && 1 <= |mins| == |kids| <= FANOUT
    && (forall i :: 0 <= i < |kids| ==> children[i] == kids[i])
    && (forall i :: 1 <= i < |mins| ==> keys[i] == mins[i] && mins[i] < UINT64_MAX)
    && (forall i :: |mins| <= i < FANOUT ==> keys[i] == UINT64_MAX)
  }

  ghost predicate Ascending(ks: seq<nat>)
  {
    forall i, j :: 0 <= i < j < |ks| ==> ks[i] < ks[j]
  }

  ghost predicate AscendingStarts(rs: seq<Range>)
  {
    forall i, j :: 0 <= i < j < |rs| ==> rs[i].start < rs[j].start
  }

  // ----- searches -----

  function LeafCountLe(slots: seq<Range>, x: nat): (n: nat)
    requires |slots| == FANOUT
  {
    var n := if slots[7].start <= x then 8 else 0;
    var n := n + if slots[n + 3].start <= x then 4 else 0;
    var n := n + if slots[n + 1].start <= x then 2 else 0;
    var n := n + if slots[n].start <= x then 1 else 0;
    n + if slots[15].start <= x then 1 else 0
  }

  function KeysCountLe(keys: seq<nat>, x: nat): (n: nat)
    requires |keys| == FANOUT
  {
    var n := (if keys[8] <= x then 8 else 0) + 1;
    var n := n + if keys[n + 3] <= x then 4 else 0;
    var n := n + if keys[n + 1] <= x then 2 else 0;
    n - 1 + if keys[n] <= x then 1 else 0
  }

  /** The fixed-step search of a leaf counts the ranges that start at or before `x`. */
  lemma LeafSearch(slots: seq<Range>, rs: seq<Range>, x: nat)
    requires LeafHolds(slots, rs) && AscendingStarts(rs) && x < UINT64_MAX
    ensures var n := LeafCountLe(slots, x);
            && n <= |rs|
            && (forall i :: 0 <= i < n ==> rs[i].start <= x)
            && (forall i :: n <= i < |rs| ==> x < rs[i].start)
  {
    hide LeafCountLe;
    SlotsAscend(slots, rs);
    LeafCount(slots, x);
    SlotsUnused(slots, rs);
  }

  lemma SlotsUnused(slots: seq<Range>, rs: seq<Range>)
    requires LeafHolds(slots, rs)
    ensures |rs| <= |slots| == FANOUT && forall i :: |rs| <= i < FANOUT ==> slots[i].start == UINT64_MAX
  {
  }

  lemma SlotsAscend(slots: seq<Range>, rs: seq<Range>)
    requires LeafHolds(slots, rs) && AscendingStarts(rs)
    ensures forall i, j :: 0 <= i < j < FANOUT ==> slots[i].start <= slots[j].start
  {
  }

  /** The fixed-step search counts the slots that start at or before `x`. */
  lemma LeafCount(slots: seq<Range>, x: nat)
    requires |slots| == FANOUT && forall i, j :: 0 <= i < j < FANOUT ==> slots[i].start <= slots[j].start
    ensures var n := LeafCountLe(slots, x);
            n <= FANOUT && (n > 0 ==> slots[n - 1].start <= x) && (n < FANOUT ==> x < slots[n].start)
  {
  }

  /** The fixed-step search of a non-leaf node finds the last child whose smallest start is at or before `x`. */
  lemma KeySearch(keys: seq<nat>, children: seq<Addr>, mins: seq<nat>, kids: seq<Addr>, x: nat)
    requires InnerHolds(keys, children, mins, kids) && Ascending(mins) && x < UINT64_MAX
    ensures var n := KeysCountLe(keys, x);
            && n < |mins|
            && (n > 0 ==> mins[n] <= x)
            && (forall i :: n < i < |mins| ==> x < mins[i])
  {
    assert forall i, j :: 1 <= i < j < FANOUT ==> keys[i] <= keys[j];
  }

  predicate LeafHasEntry(slots: seq<Range>, i: nat)
    requires i < |slots|
  {
    slots[i].start != UINT64_MAX
  }

  predicate InnerHasEntry(keys: seq<nat>, i: nat)
    requires i < |keys|
  {
    keys[i] != UINT64_MAX
  }

  // ----- shifting -----

  method InsertRangeAt(slots: seq<Range>, pos: nat, range: Range, ghost rs: seq<Range>) returns (r: seq<Range>)
    requires LeafHolds(slots, rs) && pos <= |rs| < FANOUT && range.start < UINT64_MAX
    ensures LeafHolds(r, Insert(rs, pos, range))
  {
    r := slots;
    var p, carried := pos, range;
    ghost var want := Insert(rs, pos, range);
    while true
      invariant pos <= p <= |rs| && |r| == FANOUT
      invariant forall i :: 0 <= i < p ==> r[i] == want[i]
      invariant forall i :: p <= i < FANOUT ==> r[i] == slots[i]
      invariant carried == want[p]
      decreases FANOUT - p
    {
      var displaced := r[p];
      r := r[p := carried];
      if displaced.start == UINT64_MAX {
        break;
      }
      carried := displaced;
      p := p + 1;
    }
  }

  method RemoveRangeAt(slots: seq<Range>, pos: nat, ghost rs: seq<Range>) returns (r: seq<Range>, removed: Range)
    requires LeafHolds(slots, rs) && pos < |rs|
    ensures LeafHolds(r, Remove(rs, pos)) && removed == rs[pos]
  {
    r, removed := slots, slots[pos];
    var p := pos;
    ghost var want := Remove(rs, pos);
    while p + 1 < FANOUT && r[p + 1].start != UINT64_MAX
      invariant pos <= p < |rs| && |r| == FANOUT
      invariant forall i :: 0 <= i < p ==> r[i] == want[i]
      invariant forall i :: p <= i < FANOUT ==> r[i] == slots[i]
      decreases FANOUT - p
    {
      r := r[p := r[p + 1]];
      p := p + 1;
    }
    r := r[p := EMPTY_RANGE];
  }

  method InsertEntryAt(keys: seq<nat>, children: seq<Addr>, index: nat, key: nat, child: Addr,
                       ghost mins: seq<nat>, ghost kids: seq<Addr>)
    returns (ks: seq<nat>, cs: seq<Addr>)
    requires InnerHolds(keys, children, mins, kids) && 1 <= index <= |kids| < FANOUT && key < UINT64_MAX
    ensures InnerHolds(ks, cs, Insert(mins, index, key), Insert(kids, index, child))
  {
    ks, cs := keys, children;
    var p, k, c := index, key, child;
    ghost var wantMins, wantKids := Insert(mins, index, key), Insert(kids, index, child);
    while true
      invariant index <= p <= |kids| && |ks| == |cs| == FANOUT
      invariant forall i :: 1 <= i < p ==> ks[i] == wantMins[i]
      invariant forall i :: 0 <= i < p ==> cs[i] == wantKids[i]
      invariant forall i :: p <= i < FANOUT ==> ks[i] == keys[i] && cs[i] == children[i]
      invariant k == wantMins[p] && c == wantKids[p]
      decreases FANOUT - p
    {
      var displacedKey := ks[p];
      ks := ks[p := k];
      if displacedKey == UINT64_MAX {
        cs := cs[p := c];
        break;
      }
      var displacedChild := cs[p];
      cs := cs[p := c];
      k, c := displacedKey, displacedChild;
      p := p + 1;
    }
  }

  method RemoveEntryAt(keys: seq<nat>, children: seq<Addr>, index: nat, ghost mins: seq<nat>, ghost kids: seq<Addr>)
    returns (ks: seq<nat>, cs: seq<Addr>, removed: nat)
    requires InnerHolds(keys, children, mins, kids) && 1 <= index < |kids|
    ensures InnerHolds(ks, cs, Remove(mins, index), Remove(kids, index)) && removed == mins[index]
  {
    ks, cs, removed := keys, children, keys[index];
    var p := index;
    ghost var wantMins, wantKids := Remove(mins, index), Remove(kids, index);
    while p + 1 < FANOUT && ks[p + 1] != UINT64_MAX
      invariant index <= p < |kids| && |ks| == |cs| == FANOUT
      invariant forall i :: 1 <= i < p ==> ks[i] == wantMins[i]
      invariant forall i :: 0 <= i < p ==> cs[i] == wantKids[i]
      invariant forall i :: p <= i < FANOUT ==> ks[i] == keys[i] && cs[i] == children[i]
      decreases FANOUT - p
    {
      ks := ks[p := ks[p + 1]];
      cs := cs[p := cs[p + 1]];
      p := p + 1;
    }
    ks := ks[p := UINT64_MAX];
  }

  // ----- splitting -----

  /** Moves the high half of a full leaf to another one. */
  method SplitLeaf(slots: seq<Range>, ghost rs: seq<Range>) returns (low: seq<Range>, high: seq<Range>)
    requires LeafHolds(slots, rs) && |rs| == FANOUT
    ensures LeafHolds(low, rs[..MIN_ENTRIES]) && LeafHolds(high, rs[MIN_ENTRIES..])
  {
    low, high := slots, seq(FANOUT, i => EMPTY_RANGE);
    for i := 0 to MIN_ENTRIES
      invariant |low| == |high| == FANOUT
      invariant forall k :: 0 <= k < MIN_ENTRIES ==> low[k] == slots[k]
      invariant forall k :: MIN_ENTRIES + i <= k < FANOUT ==> low[k] == slots[k]
      invariant forall k :: 0 <= k < i ==> high[k] == slots[MIN_ENTRIES + k]
      invariant forall k :: MIN_ENTRIES <= k < MIN_ENTRIES + i ==> low[k] == high[k] == EMPTY_RANGE
    {
      high := high[i := low[MIN_ENTRIES + i]];
      high := high[MIN_ENTRIES + i := EMPTY_RANGE];
      low := low[MIN_ENTRIES + i := EMPTY_RANGE];
    }
  }

  /** Moves the high half of a full non-leaf node to another one; the separator is the start of the first child that
      moved. */
  method SplitInner(keys: seq<nat>, children: seq<Addr>, ghost mins: seq<nat>, ghost kids: seq<Addr>)
    returns (lowKeys: seq<nat>, highKeys: seq<nat>, highChildren: seq<Addr>, sep: nat)
    requires InnerHolds(keys, children, mins, kids) && |kids| == FANOUT
    ensures InnerHolds(lowKeys, children, mins[..MIN_ENTRIES], kids[..MIN_ENTRIES])
    ensures InnerHolds(highKeys, highChildren, mins[MIN_ENTRIES..], kids[MIN_ENTRIES..])
    ensures sep == mins[MIN_ENTRIES] < UINT64_MAX
  {
    sep := keys[MIN_ENTRIES];
    lowKeys, highKeys, highChildren := keys, keys, children;
    for i := 0 to MIN_ENTRIES
      invariant |lowKeys| == |highKeys| == |highChildren| == FANOUT
      invariant forall k :: 0 <= k < MIN_ENTRIES ==> lowKeys[k] == keys[k]
      invariant forall k :: MIN_ENTRIES + i <= k < FANOUT ==> lowKeys[k] == keys[k]
      invariant forall k :: 0 <= k < i ==>
                  highKeys[k] == keys[MIN_ENTRIES + k] && highChildren[k] == children[MIN_ENTRIES + k]
      invariant forall k :: MIN_ENTRIES <= k < MIN_ENTRIES + i ==> lowKeys[k] == highKeys[k] == UINT64_MAX
    {
      highKeys := highKeys[i := lowKeys[MIN_ENTRIES + i]];
      highKeys := highKeys[MIN_ENTRIES + i := UINT64_MAX];
      highChildren := highChildren[i := children[MIN_ENTRIES + i]];
      lowKeys := lowKeys[MIN_ENTRIES + i := UINT64_MAX];
    }
  }
}
