/** Sorted lists of half-open ranges, and what adding, subtracting and scanning them mean. */
module Ranges {
  import opened Basics

  datatype Range = Range(start: nat, end: nat)

  /** The offset `x` lies in one of the ranges. */
  ghost predicate Covers(rs: seq<Range>, x: int)
  {
    exists i :: 0 <= i < |rs| && rs[i].start <= x < rs[i].end
  }

  /** Ascending, and between two ranges there is always a gap; only the first range may be empty. */
  ghost predicate Separated(rs: seq<Range>)
  {
    && (forall i :: 0 <= i < |rs| ==> rs[i].start <= rs[i].end)
    && (forall i :: 0 < i < |rs| ==> rs[i].start < rs[i].end)
    && (forall i, j :: 0 <= i < j < |rs| ==> rs[i].end < rs[j].start)
  }

  /** Separated, and no range is empty. */
  ghost predicate Canonical(rs: seq<Range>)
  {
    Separated(rs) && (|rs| > 0 ==> rs[0].start < rs[0].end)
  }

  ghost predicate SameCover(a: seq<Range>, b: seq<Range>)
  {
    forall x: int :: Covers(a, x) <==> Covers(b, x)
  }

  // ----- counting -----

  /** Number of leading ranges that end before `x`. */
  function EndsBelow(rs: seq<Range>, x: nat): (n: nat)
    ensures n <= |rs|
  {
    if rs == [] || x <= rs[0].end then 0 else 1 + EndsBelow(rs[1..], x)
  }

  /** Number of leading ranges that start at or before `x`. */
  function StartsUpTo(rs: seq<Range>, x: nat): (n: nat)
    ensures n <= |rs|
  {
    if rs == [] || x < rs[0].start then 0 else 1 + StartsUpTo(rs[1..], x)
  }

  lemma {:induction false} EndsBelowSplits(rs: seq<Range>, x: nat, n: nat)
    requires Separated(rs) && n <= |rs|
    requires n > 0 ==> rs[n - 1].end < x
    requires n < |rs| ==> x <= rs[n].end
    ensures EndsBelow(rs, x) == n
  {
    if n > 0 {
      assert rs[0].end <= rs[n - 1].end;
      EndsBelowSplits(rs[1..], x, n - 1);
    }
  }

  lemma {:induction false} EndsBelowBounds(rs: seq<Range>, x: nat)
    ensures var n := EndsBelow(rs, x); (n > 0 ==> rs[n - 1].end < x) && (n < |rs| ==> x <= rs[n].end)
  {
    if rs != [] && rs[0].end < x {
      EndsBelowBounds(rs[1..], x);
    }
  }

  lemma {:induction false} StartsUpToSplits(rs: seq<Range>, x: nat, n: nat)
    requires Separated(rs) && n <= |rs|
    requires n > 0 ==> rs[n - 1].start <= x
    requires n < |rs| ==> x < rs[n].start
    ensures StartsUpTo(rs, x) == n
  {
    if n > 0 {
      assert rs[0].start <= rs[n - 1].start;
      StartsUpToSplits(rs[1..], x, n - 1);
    }
  }

  lemma {:induction false} StartsUpToBounds(rs: seq<Range>, x: nat)
    ensures var n := StartsUpTo(rs, x); (n > 0 ==> rs[n - 1].start <= x) && (n < |rs| ==> x < rs[n].start)
  {
    if rs != [] && rs[0].start <= x {
      StartsUpToBounds(rs[1..], x);
    }
  }

  // ----- union -----

  /** The ranges from index `lo` up to (not including) `hi` replaced by one. */
  function Collapse(rs: seq<Range>, lo: nat, hi: nat, r: Range): (u: seq<Range>)
    requires lo <= hi <= |rs|
  {
    rs[..lo] + [r] + rs[hi..]
  }

  /** [s, e) joined with the ranges from index `lo` up to `hi`. */
  function Joined(rs: seq<Range>, lo: nat, hi: nat, s: nat, e: nat): (r: Range)
    requires lo <= hi <= |rs|
  {
    if lo == hi then Range(s, e) else Range(Min(s, rs[lo].start), Max(e, rs[hi - 1].end))
  }

  /** The list obtained by adding [s, e): the ranges that overlap or touch it collapse into one. */
  function Union(rs: seq<Range>, s: nat, e: nat): (u: seq<Range>)
    requires s <= e
  {
    if s == e then rs else
      var lo := EndsBelow(rs, s);
      var hi := Max(lo, StartsUpTo(rs, e));
      Collapse(rs, lo, hi, Joined(rs, lo, hi, s, e))
  }

  ghost predicate EndsBefore(rs: seq<Range>, x: nat)
  {
    forall i :: 0 <= i < |rs| ==> rs[i].end < x
  }

  ghost predicate StartsAfter(rs: seq<Range>, x: nat)
  {
    forall i :: 0 <= i < |rs| ==> x < rs[i].start
  }

  /** Some range overlaps or touches [s, e). */
  ghost predicate Touches(rs: seq<Range>, s: nat, e: nat)
  {
    exists i :: 0 <= i < |rs| && rs[i].start <= e && s <= rs[i].end
  }

  /** The ranges that touch [s, e) are those from index `lo` up to `hi`. */
  ghost predicate Touching(rs: seq<Range>, s: nat, e: nat, lo: nat, hi: nat)
  {
    && lo <= hi <= |rs|
    && EndsBefore(rs[..lo], s)
    && StartsAfter(rs[hi..], e)
    && (lo < hi ==> s <= rs[lo].end && rs[hi - 1].start <= e)
  }

  lemma UnionIs(rs: seq<Range>, s: nat, e: nat, lo: nat, hi: nat)
    requires Separated(rs) && s < e && Touching(rs, s, e, lo, hi)
    ensures Union(rs, s, e) == Collapse(rs, lo, hi, Joined(rs, lo, hi, s, e))
  {
    assert lo > 0 ==> rs[..lo][lo - 1].end < s;
    assert hi < |rs| ==> e < rs[hi..][0].start;
    EndsBelowSplits(rs, s, lo);
    assert hi > 0 ==> rs[hi - 1].start <= e;
    StartsUpToSplits(rs, e, hi);
  }

  lemma UnionTouches(rs: seq<Range>, s: nat, e: nat) returns (lo: nat, hi: nat)
    requires Separated(rs) && s < e
    ensures Touching(rs, s, e, lo, hi)
    ensures Union(rs, s, e) == Collapse(rs, lo, hi, Joined(rs, lo, hi, s, e))
  {
    lo, hi := EndsBelow(rs, s), StartsUpTo(rs, e);
    EndsBelowBounds(rs, s);
    StartsUpToBounds(rs, e);
    assert lo <= hi;
    PrefixEnds(rs, lo, s);
    SuffixStarts(rs, hi, e);
    UnionIs(rs, s, e, lo, hi);
  }

  lemma PrefixEnds(rs: seq<Range>, lo: nat, s: nat)
    requires Separated(rs) && lo <= |rs| && (lo > 0 ==> rs[lo - 1].end < s)
    ensures EndsBefore(rs[..lo], s)
  {
  }

  lemma SuffixStarts(rs: seq<Range>, hi: nat, e: nat)
    requires Separated(rs) && hi <= |rs| && (hi < |rs| ==> e < rs[hi].start)
    ensures StartsAfter(rs[hi..], e)
  {
  }

  /** A range that has a gap on both sides can be put between two lists. */
  lemma Glue(a: seq<Range>, r: Range, b: seq<Range>)
    requires Separated(a) && Canonical(b) && r.start < r.end
    requires EndsBefore(a, r.start) && StartsAfter(b, r.end)
    ensures Separated(a + [r] + b)
    ensures Canonical(a) ==> Canonical(a + [r] + b)
  {
    var u := a + [r] + b;
    forall i, j | 0 <= i < j < |u| ensures u[i].end < u[j].start {
      if j < |a| {
      } else if i < |a| < j {
        assert a[i].end < r.start < r.end < b[j - |a| - 1].start;
      } else if |a| < i {
        assert b[i - |a| - 1].end < b[j - |a| - 1].start;
      }
    }
  }

  lemma Slices(rs: seq<Range>, lo: nat, hi: nat)
    requires Separated(rs) && lo <= hi <= |rs|
    ensures Separated(rs[..lo]) && (Canonical(rs) ==> Canonical(rs[..lo]))
    ensures hi > 0 || Canonical(rs) ==> Canonical(rs[hi..])
  {
  }

  lemma JoinedFits(rs: seq<Range>, s: nat, e: nat, lo: nat, hi: nat)
    requires Separated(rs) && s < e && Touching(rs, s, e, lo, hi)
    ensures var j := Joined(rs, lo, hi, s, e);
            j.start < j.end && EndsBefore(rs[..lo], j.start) && StartsAfter(rs[hi..], j.end)
  {
  }

  /** Adding keeps the list separated, unless it puts a range before an empty one. */
  lemma UnionSeparated(rs: seq<Range>, s: nat, e: nat)
    requires Separated(rs) && s <= e
    ensures Separated(Union(rs, s, e)) <==> s == e || rs == [] || rs[0].start <= e || Canonical(rs)
    ensures Canonical(rs) ==> Canonical(Union(rs, s, e))
  {
    if s < e {
      var lo, hi := UnionTouches(rs, s, e);
      assert hi == 0 && rs != [] ==> e < rs[hi..][0].start;
      if rs == [] || rs[0].start <= e || Canonical(rs) {
        Slices(rs, lo, hi);
        JoinedFits(rs, s, e, lo, hi);
        Glue(rs[..lo], Joined(rs, lo, hi, s, e), rs[hi..]);
      } else {
        assert lo == hi == 0 && Union(rs, s, e)[1] == rs[0];
      }
    }
  }

  lemma SingleCovers(r: Range, x: int)
    ensures Covers([r], x) <==> r.start <= x < r.end
  {
    if r.start <= x < r.end { assert [r][0].start <= x < [r][0].end; }
  }

  lemma JoinedCovers(rs: seq<Range>, s: nat, e: nat, lo: nat, hi: nat, x: int)
    requires Separated(rs) && s < e && Touching(rs, s, e, lo, hi)
    ensures var j := Joined(rs, lo, hi, s, e); j.start <= x < j.end <==> Covers(rs[lo..hi], x) || s <= x < e
  {
    if lo < hi {
      var mid := rs[lo..hi];
      assert mid[0] == rs[lo] && mid[hi - lo - 1] == rs[hi - 1];
      assert x < s && rs[lo].start <= x ==> mid[0].start <= x < mid[0].end;
      assert e <= x && x < rs[hi - 1].end ==> mid[hi - lo - 1].start <= x < mid[hi - lo - 1].end;
      if Covers(mid, x) {
        var i :| 0 <= i < |mid| && mid[i].start <= x < mid[i].end;
        assert mid[i] == rs[lo + i];
        assert rs[lo].start <= rs[lo + i].start && rs[lo + i].end <= rs[hi - 1].end;
      }
    }
  }

  lemma UnionCovers(rs: seq<Range>, s: nat, e: nat, x: int)
    requires Separated(rs) && s <= e
    ensures Covers(Union(rs, s, e), x) <==> Covers(rs, x) || s <= x < e
  {
    hide Covers, Separated, Union;
    if s == e {
      UnionOfNothing(rs, s);
    } else {
      var lo, hi := UnionTouches(rs, s, e);
      var j := Joined(rs, lo, hi, s, e);
      JoinedCovers(rs, s, e, lo, hi, x);
      SingleCovers(j, x);
      ThreeCover(rs[..lo], [j], rs[hi..], x);
      SplitCovers(rs, lo, hi, x);
    }
  }

  lemma UnionOfNothing(rs: seq<Range>, s: nat)
    ensures Union(rs, s, s) == rs
  {
  }

  lemma SplitCovers(rs: seq<Range>, i: nat, j: nat, x: int)
    requires i <= j <= |rs|
    ensures Covers(rs, x) <==> Covers(rs[..i], x) || Covers(rs[i..j], x) || Covers(rs[j..], x)
  {
    hide Covers;
    ThreeCover(rs[..i], rs[i..j], rs[j..], x);
    assert rs == rs[..i] + rs[i..j] + rs[j..];
  }

  lemma CoversBefore(a: seq<Range>, s: nat, x: int)
    requires EndsBefore(a, s) && Covers(a, x)
    ensures x < s
  {
  }

  lemma CoversAfter(a: seq<Range>, e: int, x: int)
    requires e >= 0 && StartsAfter(a, e) && Covers(a, x)
    ensures e < x
  {
  }

  lemma ThreeCover(a: seq<Range>, b: seq<Range>, c: seq<Range>, x: int)
    ensures Covers(a + b + c, x) <==> Covers(a, x) || Covers(b, x) || Covers(c, x)
  {
    hide Covers;
    ConcatCovers(a + b, c, x);
    ConcatCovers(a, b, x);
  }

  // ----- difference -----

  /** What is left of one range once [s, e) is taken away. */
  function Cut(r: Range, s: nat, e: nat): (c: seq<Range>)
  {
    (if r.start < Min(r.end, s) then [Range(r.start, Min(r.end, s))] else []) +
    (if Max(r.start, e) < r.end then [Range(Max(r.start, e), r.end)] else [])
  }

  function Difference(rs: seq<Range>, s: nat, e: nat): (d: seq<Range>)
  {
    if s >= e || rs == [] then rs else Cut(rs[0], s, e) + Difference(rs[1..], s, e)
  }

  lemma {:induction false} DifferenceCanonical(rs: seq<Range>, s: nat, e: nat)
    requires Canonical(rs)
    ensures Canonical(Difference(rs, s, e))
    ensures forall i :: 0 <= i < |Difference(rs, s, e)| ==> rs != [] && rs[0].start <= Difference(rs, s, e)[i].start
  {
    if s < e && rs != [] {
      var r, tail := rs[0], rs[1..];
      assert Canonical(tail) && (tail != [] ==> r.end < tail[0].start);
      DifferenceCanonical(tail, s, e);
      CutAhead(r, Difference(tail, s, e), s, e);
    }
  }

  lemma CutAhead(r: Range, d: seq<Range>, s: nat, e: nat)
    requires r.start < r.end && s < e && Canonical(d) && StartsAfter(d, r.end)
    ensures Canonical(Cut(r, s, e) + d)
    ensures forall i :: 0 <= i < |Cut(r, s, e) + d| ==> r.start <= (Cut(r, s, e) + d)[i].start
  {
    hide Canonical, Cut;
    var c := Cut(r, s, e);
    CutShape(r, s, e);
    assert Before(c, d);
    assert forall i :: 0 <= i < |d| ==> r.start <= d[i].start;
    Adjoin(c, d);
  }

  lemma CutShape(r: Range, s: nat, e: nat)
    requires r.start < r.end && s < e
    ensures var c := Cut(r, s, e); Canonical(c) && forall k :: 0 <= k < |c| ==>
              r.start <= c[k].start && c[k].end <= r.end
  {
  }

  lemma {:induction false} DifferenceCovers(rs: seq<Range>, s: nat, e: nat, x: int)
    ensures Covers(Difference(rs, s, e), x) <==> Covers(rs, x) && !(s <= x < e)
  {
    if s < e && rs != [] {
      var c, d := Cut(rs[0], s, e), Difference(rs[1..], s, e);
      DifferenceCovers(rs[1..], s, e, x);
      ConcatCovers([rs[0]], rs[1..], x);
      ConcatCovers(c, d, x);
      assert [rs[0]] + rs[1..] == rs;
      assert Covers([rs[0]], x) <==> rs[0].start <= x < rs[0].end by {
        if rs[0].start <= x < rs[0].end { assert [rs[0]][0] == rs[0]; }
      }
      CutCovers(rs[0], s, e, x);
    }
  }

  lemma CutCovers(r: Range, s: nat, e: nat, x: int)
    requires s < e
    ensures Covers(Cut(r, s, e), x) <==> r.start <= x < r.end && !(s <= x < e)
  {
    var c := Cut(r, s, e);
    if r.start <= x < r.end && x < s { assert c[0].start <= x < c[0].end; }
    if r.start <= x < r.end && e <= x { assert c[|c| - 1].start <= x < c[|c| - 1].end; }
  }

  lemma ConcatCovers(a: seq<Range>, b: seq<Range>, x: int)
    ensures Covers(a + b, x) <==> Covers(a, x) || Covers(b, x)
  {
    if Covers(a, x) {
      var i :| 0 <= i < |a| && a[i].start <= x < a[i].end;
      assert (a + b)[i] == a[i];
    }
    if Covers(b, x) {
      var i :| 0 <= i < |b| && b[i].start <= x < b[i].end;
      assert (a + b)[|a| + i] == b[i];
    }
  }

  /** The ranges from index `i` up to `j` cut down to what lies outside [s, e). */
  function Trim(rs: seq<Range>, i: nat, j: nat, s: nat, e: nat): (t: seq<Range>)
    requires i < j <= |rs|
  {
    (if rs[i].start < s then [Range(rs[i].start, s)] else []) +
    (if e < rs[j - 1].end then [Range(e, rs[j - 1].end)] else [])
  }

  /** The ranges that overlap [s, e) are among those from index `i` up to `j`. */
  ghost predicate Overlapping(rs: seq<Range>, s: nat, e: nat, i: nat, j: nat)
  {
    && i < j <= |rs|
    && (i > 0 ==> rs[i - 1].end < s)
    && s <= rs[i].end && rs[i].start < e
    && rs[j - 1].start < e && (j < |rs| ==> e <= rs[j].start)
  }

  lemma TrimMiddleCovers(rs: seq<Range>, s: nat, e: nat, i: nat, j: nat, x: int)
    requires Separated(rs) && s < e && Overlapping(rs, s, e, i, j)
    ensures Covers(Trim(rs, i, j, s, e), x) <==> Covers(rs[i..j], x) && !(s <= x < e)
  {
    if Covers(rs[i..j], x) {
      MiddleEnds(rs, s, e, i, j, x);
    }
    TrimCoversIff(rs, s, e, i, j, x);
    var mid := rs[i..j];
    assert mid[0] == rs[i] && mid[j - i - 1] == rs[j - 1];
    assert rs[i].start <= x < rs[i].end ==> mid[0].start <= x < mid[0].end;
    assert rs[j - 1].start <= x < rs[j - 1].end ==> mid[j - i - 1].start <= x < mid[j - i - 1].end;
  }

  lemma TrimCoversIff(rs: seq<Range>, s: nat, e: nat, i: nat, j: nat, x: int)
    requires i < j <= |rs|
    ensures Covers(Trim(rs, i, j, s, e), x) <==> rs[i].start <= x < s || e <= x < rs[j - 1].end
  {
    var t := Trim(rs, i, j, s, e);
    assert rs[i].start <= x < s ==> t[0] == Range(rs[i].start, s);
    assert e <= x < rs[j - 1].end ==> t[|t| - 1] == Range(e, rs[j - 1].end);
  }

  /** Outside [s, e), an offset of the overlapping ranges lies in the first or the last of them. */
  lemma MiddleEnds(rs: seq<Range>, s: nat, e: nat, i: nat, j: nat, x: int)
    requires Separated(rs) && s < e && Overlapping(rs, s, e, i, j) && Covers(rs[i..j], x)
    ensures x < s ==> rs[i].start <= x < rs[i].end
    ensures e <= x ==> rs[j - 1].start <= x < rs[j - 1].end
  {
    var mid := rs[i..j];
    var k :| 0 <= k < |mid| && mid[k].start <= x < mid[k].end;
    assert mid[k] == rs[i + k];
    assert k > 0 ==> rs[i].end < rs[i + k].start;
    assert i + k < j - 1 ==> rs[i + k].end < rs[j - 1].start;
  }

  lemma TrimCovers(rs: seq<Range>, s: nat, e: nat, i: nat, j: nat, x: int)
    requires Separated(rs) && s < e && Overlapping(rs, s, e, i, j)
    ensures Covers(rs[..i] + Trim(rs, i, j, s, e) + rs[j..], x) <==> Covers(rs, x) && !(s <= x < e)
  {
    hide Covers, Separated, Trim;
    SplitCovers(rs, i, j, x);
    assert Covers(rs[..i], x) ==> x < s by {
      PrefixEnds(rs, i, s);
      if Covers(rs[..i], x) { CoversBefore(rs[..i], s, x); }
    }
    assert Covers(rs[j..], x) ==> e <= x by {
      SuffixStarts(rs, j, e - 1);
      if Covers(rs[j..], x) { CoversAfter(rs[j..], e - 1, x); }
    }
    TrimMiddleCovers(rs, s, e, i, j, x);
    ThreeCover(rs[..i], Trim(rs, i, j, s, e), rs[j..], x);
  }

  ghost predicate Before(a: seq<Range>, b: seq<Range>)
  {
    forall i, j :: 0 <= i < |a| && 0 <= j < |b| ==> a[i].end < b[j].start
  }

  lemma Adjoin(a: seq<Range>, b: seq<Range>)
    requires Separated(a) && Canonical(b) && Before(a, b)
    ensures Separated(a + b)
    ensures Canonical(a) ==> Canonical(a + b)
  {
    var u := a + b;
    forall i, j | 0 <= i < j < |u| ensures u[i].end < u[j].start {
      if i < |a| <= j {
        assert a[i].end < b[j - |a|].start;
      } else if |a| <= i {
        assert b[i - |a|].end < b[j - |a|].start;
      }
    }
  }

  lemma BeforeBoth(a: seq<Range>, t: seq<Range>, b: seq<Range>)
    requires Before(a, b) && Before(t, b)
    ensures Before(a + t, b)
  {
  }

  lemma TrimSeparated(rs: seq<Range>, s: nat, e: nat, i: nat, j: nat)
    requires Separated(rs) && s < e && Overlapping(rs, s, e, i, j)
    ensures Separated(rs[..i] + Trim(rs, i, j, s, e) + rs[j..])
    ensures Canonical(rs) ==> Canonical(rs[..i] + Trim(rs, i, j, s, e) + rs[j..])
  {
    var t, a, b := Trim(rs, i, j, s, e), rs[..i], rs[j..];
    Slices(rs, i, j);
    TrimFits(rs, s, e, i, j);
    Adjoin(a, t);
    BeforeBoth(a, t, b);
    Adjoin(a + t, b);
  }

  lemma TrimShape(rs: seq<Range>, s: nat, e: nat, i: nat, j: nat)
    requires Separated(rs) && s < e && Overlapping(rs, s, e, i, j)
    ensures var t := Trim(rs, i, j, s, e);
            && Canonical(t)
            && (forall k :: 0 <= k < |t| ==> rs[i].start <= t[k].start && t[k].end <= Max(s, rs[j - 1].end))
            && (forall k :: 0 <= k < |t| && i > 0 ==> rs[i - 1].end < t[k].start)
            && (forall k :: 0 <= k < |t| && j < |rs| ==> t[k].end < rs[j].start)
  {
  }

  lemma PrefixBefore(rs: seq<Range>, i: nat, t: seq<Range>)
    requires Separated(rs) && i <= |rs|
    requires forall k :: 0 <= k < |t| && i > 0 ==> rs[i - 1].end < t[k].start
    ensures Before(rs[..i], t)
  {
    forall m, k | 0 <= m < i && 0 <= k < |t| ensures rs[..i][m].end < t[k].start {
      assert rs[m].end <= rs[i - 1].end;
    }
  }

  lemma BeforeSuffix(rs: seq<Range>, j: nat, t: seq<Range>)
    requires Separated(rs) && j <= |rs|
    requires forall k :: 0 <= k < |t| && j < |rs| ==> t[k].end < rs[j].start
    ensures Before(t, rs[j..])
  {
    forall k, n | 0 <= k < |t| && 0 <= n < |rs| - j ensures t[k].end < rs[j..][n].start {
      assert rs[j].start <= rs[j + n].start;
    }
  }

  lemma PrefixBeforeSuffix(rs: seq<Range>, i: nat, j: nat)
    requires Separated(rs) && i <= j <= |rs|
    ensures Before(rs[..i], rs[j..])
  {
  }

  lemma TrimFits(rs: seq<Range>, s: nat, e: nat, i: nat, j: nat)
    requires Separated(rs) && s < e && Overlapping(rs, s, e, i, j)
    ensures var t, a, b := Trim(rs, i, j, s, e), rs[..i], rs[j..];
            Canonical(t) && Before(a, t) && Before(a, b) && Before(t, b)
  {
    hide Separated, Before, Trim;
    TrimShape(rs, s, e, i, j);
    PrefixBefore(rs, i, Trim(rs, i, j, s, e));
    BeforeSuffix(rs, j, Trim(rs, i, j, s, e));
    PrefixBeforeSuffix(rs, i, j);
  }

  /** Cutting the overlapping ranges is the difference. */
  lemma TrimIsDifference(rs: seq<Range>, s: nat, e: nat, i: nat, j: nat)
    requires Canonical(rs) && s < e && Overlapping(rs, s, e, i, j)
    ensures rs[..i] + Trim(rs, i, j, s, e) + rs[j..] == Difference(rs, s, e)
  {
    TrimSeparated(rs, s, e, i, j);
    DifferenceCanonical(rs, s, e);
    forall x: int
      ensures Covers(rs[..i] + Trim(rs, i, j, s, e) + rs[j..], x) <==> Covers(Difference(rs, s, e), x)
    {
      TrimCovers(rs, s, e, i, j, x);
      DifferenceCovers(rs, s, e, x);
    }
    CanonicalUnique(rs[..i] + Trim(rs, i, j, s, e) + rs[j..], Difference(rs, s, e));
  }

  /** A range that overlaps nothing takes nothing away. */
  lemma {:induction false} DifferenceApart(rs: seq<Range>, s: nat, e: nat)
    requires Canonical(rs)
    requires forall k :: 0 <= k < |rs| ==> rs[k].end <= s || e <= rs[k].start
    ensures Difference(rs, s, e) == rs
  {
    hide Separated;
    if s < e && rs != [] {
      var r, tail := rs[0], rs[1..];
      assert rs == [r] + tail;
      Slices(rs, 0, 1);
      DifferenceApart(tail, s, e);
      assert r.end <= s || e <= r.start;
      assert Cut(r, s, e) == [r];
    }
  }

  // ----- scanning -----

  /** `r` is the least offset at or above `bound` that no range covers. */
  ghost predicate IsNextMissing(rs: seq<Range>, bound: nat, r: nat)
  {
    bound <= r && !Covers(rs, r) && forall x: int :: bound <= x < r ==> Covers(rs, x)
  }

  /** At the first range that ends at or above the bound, the answer is that end or the bound itself. */
  lemma NextMissingAt(rs: seq<Range>, bound: nat, n: nat)
    requires Separated(rs) && n < |rs|
    requires n > 0 ==> rs[n - 1].end < bound
    requires bound <= rs[n].end
    ensures IsNextMissing(rs, bound, if bound < rs[n].start then bound else rs[n].end)
  {
    var r := if bound < rs[n].start then bound else rs[n].end;
    forall k | 0 <= k < |rs| ensures !(rs[k].start <= r < rs[k].end) {
      if k < n {
        assert rs[k].end <= rs[n - 1].end;
      } else if k > n {
        assert rs[n].end < rs[k].start;
      }
    }
    forall x: int | bound <= x < r ensures Covers(rs, x) {
      assert rs[n].start <= x < rs[n].end;
    }
  }

  // ----- canonical lists are determined by what they cover -----

  /** Two canonical lists that cover the same offsets are the same list. */
  lemma {:induction false} CanonicalUnique(a: seq<Range>, b: seq<Range>)
    requires Canonical(a) && Canonical(b) && SameCover(a, b)
    ensures a == b
  {
    hide Covers;
    EmptyTogether(a, b);
    if a == [] {
    } else {
      HeadsAgree(a, b);
      forall x: int ensures Covers(a[1..], x) <==> Covers(b[1..], x) {
        TailCovers(a, x);
        TailCovers(b, x);
      }
      CanonicalUnique(a[1..], b[1..]);
      assert a == [a[0]] + a[1..] && b == [b[0]] + b[1..];
    }
  }

  lemma EmptyTogether(a: seq<Range>, b: seq<Range>)
    requires Canonical(a) && Canonical(b) && SameCover(a, b)
    ensures a == [] <==> b == []
  {
    assert a != [] ==> Covers(a, a[0].start);
    assert b != [] ==> Covers(b, b[0].start);
  }

  lemma TailCovers(a: seq<Range>, x: int)
    requires Canonical(a) && a != []
    ensures Covers(a[1..], x) <==> Covers(a, x) && a[0].end <= x
  {
    if Covers(a, x) && a[0].end <= x {
      var i :| 0 <= i < |a| && a[i].start <= x < a[i].end;
      assert a[1..][i - 1] == a[i];
    }
    if Covers(a[1..], x) {
      var i :| 0 <= i < |a[1..]| && a[1..][i].start <= x < a[1..][i].end;
      assert a[i + 1] == a[1..][i];
    }
  }

  lemma HeadsAgree(a: seq<Range>, b: seq<Range>)
    requires Canonical(a) && Canonical(b) && SameCover(a, b) && a != [] && b != []
    ensures a[0] == b[0]
  {
    assert Covers(a, a[0].start) && Covers(b, b[0].start);
    assert Covers(b, a[0].start) && Covers(a, b[0].start);
    assert a[0].start == b[0].start;
    HeadEnds(a);
    HeadEnds(b);
    var ea, eb := a[0].end, b[0].end;
    assert ea < eb ==> Covers(b, ea);
    assert eb < ea ==> Covers(a, eb);
  }

  lemma HeadEnds(a: seq<Range>)
    requires Canonical(a) && a != []
    ensures !Covers(a, a[0].end)
  {
  }
}
