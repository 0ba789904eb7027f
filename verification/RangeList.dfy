/** The growable sorted array of ranges (lib/ranges.c), edited in place. */
module RangeLists {
  import opened Ranges

  class RangeList {
    var ranges: seq<Range>
    var capacity: nat

    ghost predicate Valid()
      reads this
    {
      Separated(ranges) && 1 <= capacity && |ranges| <= capacity
    }

    constructor ()
      ensures Valid() && ranges == []
    {
      ranges, capacity := [], 1;
    }

    constructor WithRange(start: nat, end: nat)
      requires start <= end
      ensures Valid() && ranges == [Range(start, end)]
    {
      ranges, capacity := [Range(start, end)], 1;
    }

    /** The storage part of an insertion: grows the array when it is full. */
    method InsertAt(start: nat, end: nat, slot: nat)
      requires slot <= |ranges| <= capacity && 1 <= capacity
      modifies this
      ensures ranges == Collapse(old(ranges), slot, slot, Range(start, end))
      ensures |ranges| <= capacity && old(capacity) <= capacity
    {
      if |ranges| == capacity {
        capacity := if capacity < 4 then 4 else capacity * 2;
      }
      ranges := ranges[..slot] + [Range(start, end)] + ranges[slot..];
    }

    /** Removes the ranges from index `begin` up to `end`, giving memory back when little of it is used. */
    method DropByRangeIndices(begin: nat, end: nat)
      requires begin < end <= |ranges| <= capacity && 1 <= capacity
      modifies this
      ensures ranges == old(ranges)[..begin] + old(ranges)[end..]
      ensures |ranges| <= capacity && 1 <= capacity
    {
      ranges := ranges[..begin] + ranges[end..];
      if capacity > 4 && |ranges| * 3 <= capacity {
        capacity := capacity / 2;
      }
    }

    method MergeUpdate(start: nat, end: nat, slot: nat, endSlot: nat)
      requires slot <= endSlot < |ranges| <= capacity && 1 <= capacity
      modifies this
      ensures ranges == Collapse(old(ranges), slot, endSlot + 1, Joined(old(ranges), slot, endSlot + 1, start, end))
      ensures |ranges| <= capacity && 1 <= capacity
    {
      if start < ranges[slot].start {
        ranges := ranges[slot := Range(start, ranges[slot].end)];
      }
      var newEnd := if end < ranges[endSlot].end then ranges[endSlot].end else end;
      ranges := ranges[slot := Range(ranges[slot].start, newEnd)];
      assert ranges[..slot + 1] == old(ranges)[..slot] + [ranges[slot]];
      assert ranges[endSlot + 1..] == old(ranges)[endSlot + 1..];
      if slot != endSlot {
        DropByRangeIndices(slot + 1, endSlot + 1);
      } else {
        assert ranges == ranges[..slot + 1] + ranges[slot + 1..];
      }
    }

    /** Scans down from the last range for the slots that [start, end) overlaps or touches: `lo` up to `hi`. */
    method Scan(start: nat, end: nat) returns (lo: nat, hi: nat)
      requires Separated(ranges) && start < end
      ensures lo <= hi <= |ranges|
      ensures lo > 0 ==> ranges[lo - 1].end < start
      ensures hi < |ranges| ==> end < ranges[hi].start
      ensures lo < hi ==> start <= ranges[lo].end && ranges[hi - 1].start <= end
    {
      if |ranges| == 0 {
        return 0, 0;
      } else if ranges[|ranges| - 1].end < start {
        return |ranges|, |ranges|;
      }
      var slot := |ranges| - 1;
      while end < ranges[slot].start
        invariant 0 <= slot < |ranges|
        invariant slot + 1 < |ranges| ==> end < ranges[slot + 1].start
        decreases slot
      {
        if slot == 0 {
          return 0, 0;
        }
        slot := slot - 1;
      }
      hi := slot + 1;
      while true
        invariant 0 <= slot < hi <= |ranges|
        invariant ranges[hi - 1].start <= end
        invariant hi < |ranges| ==> end < ranges[hi].start
        invariant slot + 1 < hi ==> start <= ranges[slot + 1].end
        decreases slot
      {
        if ranges[slot].end == start {
          lo := slot;
          return;
        } else if ranges[slot].end < start {
          lo := slot + 1;
          return;
        }
        if slot == 0 {
          return 0, hi;
        }
        slot := slot - 1;
      }
    }

    /** Adds [start, end). */
    method Add(start: nat, end: nat)
      requires Valid() && start <= end
      modifies this
      ensures ranges == Union(old(ranges), start, end) && |ranges| <= capacity
      ensures Valid() <==> start == end || old(ranges) == [] || old(ranges)[0].start <= end || old(Canonical(ranges))
    {
      hide Separated, Canonical, Union, Collapse;
      UnionSeparated(ranges, start, end);
      if start == end {
        UnionOfNothing(ranges, start);
        return;
      }
      var lo, hi := Scan(start, end);
      Found(lo, hi, start, end);
      if lo == hi {
        InsertAt(start, end, lo);
      } else {
        MergeUpdate(start, end, lo, hi - 1);
      }
    }

    /** The indices that the scan stops at are the ones that delimit the touching ranges. */
    lemma Found(lo: nat, hi: nat, start: nat, end: nat)
      requires Separated(ranges) && start < end && lo <= hi <= |ranges|
      requires lo > 0 ==> ranges[lo - 1].end < start
      requires hi < |ranges| ==> end < ranges[hi].start
      requires lo < hi ==> start <= ranges[lo].end && ranges[hi - 1].start <= end
      ensures Union(ranges, start, end) == Collapse(ranges, lo, hi, Joined(ranges, lo, hi, start, end))
    {
      PrefixEnds(ranges, lo, start);
      SuffixStarts(ranges, hi, end);
      UnionIs(ranges, start, end, lo, hi);
    }

    /** Takes [start, end) away, scanning up from the first range. */
    method Subtract(start: nat, end: nat)
      requires Valid() && start <= end
      modifies this
      ensures Valid()
      ensures forall x: int :: Covers(ranges, x) <==> Covers(old(ranges), x) && !(start <= x < end)
      ensures old(Canonical(ranges)) ==> ranges == Difference(old(ranges), start, end)
    {
      hide Separated, Covers, Trim, Difference;
      if start == end {
        NothingTaken(start);
        return;
      }
      if |ranges| == 0 || end <= ranges[0].start {
        Apart(start, end, 0);
        return;
      } else if ranges[|ranges| - 1].end <= start {
        Apart(start, end, |ranges|);
        return;
      }
      var slot := 0;
      while ranges[slot].end < start
        invariant 0 <= slot < |ranges| && unchanged(this)
        invariant slot > 0 ==> ranges[slot - 1].end < start
        decreases |ranges| - slot
      {
        slot := slot + 1;
      }
      Neighbours(slot);
      if end <= ranges[slot].end {
        if end <= ranges[slot].start {
          Apart(start, end, slot);
          return;
        }
        Trimmed(start, end, slot, slot + 1);
        TrimOne(start, end, slot);
        return;
      }
      var last := FindLast(end, slot);
      Neighbours(last - 1);
      if last < |ranges| { Neighbours(last); }
      if last < |ranges| && ranges[last].start < end {
        Trimmed(start, end, slot, last + 1);
      } else {
        Trimmed(start, end, slot, last);
      }
      TrimMany(start, end, slot, last);
    }

    /** Only the range at `slot` is modified: it is shortened, split or removed. */
    method TrimOne(start: nat, end: nat, slot: nat)
      requires slot < |ranges| <= capacity && 1 <= capacity
      requires start < end && ranges[slot].start < end <= ranges[slot].end
      modifies this
      ensures ranges == old(ranges)[..slot] + Trim(old(ranges), slot, slot + 1, start, end) + old(ranges)[slot + 1..]
      ensures |ranges| <= capacity && 1 <= capacity
    {
      if start <= ranges[slot].start {
        ranges := ranges[slot := Range(end, ranges[slot].end)];
      } else if end == ranges[slot].end {
        ranges := ranges[slot := Range(ranges[slot].start, start)];
      } else {
        InsertAt(end, ranges[slot].end, slot + 1);
        ranges := ranges[slot := Range(ranges[slot].start, start)];
        return;
      }
      if ranges[slot].start == ranges[slot].end {
        DropByRangeIndices(slot, slot + 1);
      }
    }

    /** The slot after `first` at which the overlap with an interval ending at `end` stops. */
    method FindLast(end: nat, first: nat) returns (last: nat)
      requires first < |ranges| && ranges[first].end < end
      ensures first < last <= |ranges|
      ensures ranges[last - 1].end <= end
      ensures last < |ranges| ==> end < ranges[last].end || end <= ranges[last].start
    {
      last := first + 1;
      while last != |ranges|
        invariant first < last <= |ranges|
        invariant ranges[last - 1].end <= end
      {
        if end <= ranges[last].start || end < ranges[last].end {
          return;
        }
        last := last + 1;
      }
    }

    method TrimMany(start: nat, end: nat, first: nat, last: nat)
      requires first < last <= |ranges| <= capacity && 1 <= capacity
      requires start < end && ranges[last - 1].end <= end
      requires last < |ranges| && ranges[last].start < end ==> end < ranges[last].end
      modifies this
      ensures var rs := old(ranges);
              var j := if last < |rs| && rs[last].start < end then last + 1 else last;
              ranges == rs[..first] + Trim(rs, first, j, start, end) + rs[j..]
      ensures |ranges| <= capacity && 1 <= capacity
    {
      ghost var rs := ranges;
      var shrinkFrom := first;
      if ranges[first].start < start {
        ranges := ranges[first := Range(ranges[first].start, start)];
        shrinkFrom := first + 1;
      }
      ghost var low := if rs[first].start < start then [Range(rs[first].start, start)] else [];
      assert ranges[..shrinkFrom] == rs[..first] + low;
      if last < |ranges| && ranges[last].start < end {
        ranges := ranges[last := Range(end, ranges[last].end)];
        assert ranges[last..] == [Range(end, rs[last].end)] + rs[last + 1..];
      }
      assert ranges[..shrinkFrom] == rs[..first] + low;
      if shrinkFrom != last {
        DropByRangeIndices(shrinkFrom, last);
      } else {
        assert ranges == ranges[..shrinkFrom] + ranges[last..];
      }
    }

    /** The next offset at or above `bound` that is missing, found by scanning down from the last range. The answer
        is right exactly when the bound is not below the first range; otherwise the end of the first range is given. */
    method NextMissing(bound: nat) returns (result: nat, slotsTraversed: nat)
      requires Separated(ranges)
      ensures IsNextMissing(ranges, bound, result) <==> ranges == [] || ranges[0].start <= bound
      ensures ranges != [] && bound < ranges[0].start ==> result == ranges[0].end
      ensures slotsTraversed == |ranges| - EndsBelow(ranges, bound)
    {
      var slot: int := |ranges| - 1;
      result := bound;
      while slot >= 0 && ranges[slot].end >= bound
        invariant -1 <= slot < |ranges|
        invariant slot + 1 < |ranges| ==> result == ranges[slot + 1].end && bound <= result
        invariant slot + 1 < |ranges| && 0 <= slot && bound < ranges[slot + 1].start ==> bound <= ranges[slot].end
        invariant slot + 1 == |ranges| ==> result == bound
        decreases slot
      {
        result := ranges[slot].end;
        if slot != 0 && ranges[slot].start > bound && bound > ranges[slot - 1].end {
          NextMissingAt(ranges, bound, slot);
          slot := slot - 1;
          result := bound;
          break;
        }
        slot := slot - 1;
      }
      slotsTraversed := |ranges| - (slot + 1);
      EndsBelowSplits(ranges, bound, slot + 1);
      if slot + 1 < |ranges| {
        NextMissingAt(ranges, bound, slot + 1);
        assert ranges[0].start <= ranges[slot + 1].start;
      }
    }

    /** A list whose low ranges are gone, asked from a bound below what is left: the answer is 8, although 3 is
        missing. */
    static method MissesBelow() returns (list: RangeList, result: nat)
      ensures list.ranges == [Range(5, 8)] && result == 8 && !IsNextMissing(list.ranges, 3, result)
      ensures IsNextMissing(list.ranges, 3, 3)
    {
      list := new RangeList.WithRange(5, 8);
      var slots;
      result, slots := list.NextMissing(3);
    }

    lemma NothingTaken(at: nat)
      ensures forall x: int :: Covers(ranges, x) <==> Covers(ranges, x) && !(at <= x < at)
      ensures ranges == Difference(ranges, at, at)
    {
    }

    /** Nothing is taken when the ranges below index `n` end by `start` and the others begin at or after `end`. */
    lemma Apart(start: nat, end: nat, n: nat)
      requires Separated(ranges) && start < end && n <= |ranges|
      requires n > 0 ==> ranges[n - 1].end <= start
      requires n < |ranges| ==> end <= ranges[n].start
      ensures forall x: int :: Covers(ranges, x) <==> Covers(ranges, x) && !(start <= x < end)
      ensures Canonical(ranges) ==> ranges == Difference(ranges, start, end)
    {
      forall k | 0 <= k < |ranges| ensures ranges[k].end <= start || end <= ranges[k].start {
        if k < n {
          assert ranges[k].end <= ranges[n - 1].end;
        } else {
          assert ranges[n].start <= ranges[k].start;
        }
      }
      if Canonical(ranges) {
        DifferenceApart(ranges, start, end);
      }
    }

    lemma Neighbours(i: nat)
      requires Separated(ranges) && i < |ranges|
      ensures ranges[i].start <= ranges[i].end && (i > 0 ==> ranges[i].start < ranges[i].end)
      ensures i + 1 < |ranges| ==> ranges[i].end < ranges[i + 1].start
    {
    }

    lemma Trimmed(start: nat, end: nat, i: nat, j: nat)
      requires Separated(ranges) && start < end && Overlapping(ranges, start, end, i, j)
      ensures var r := ranges[..i] + Trim(ranges, i, j, start, end) + ranges[j..];
              && Separated(r)
              && (forall x: int :: Covers(r, x) <==> Covers(ranges, x) && !(start <= x < end))
              && (Canonical(ranges) ==> r == Difference(ranges, start, end))
    {
      TrimSeparated(ranges, start, end, i, j);
      forall x: int
        ensures Covers(ranges[..i] + Trim(ranges, i, j, start, end) + ranges[j..], x)
                <==> Covers(ranges, x) && !(start <= x < end)
      {
        TrimCovers(ranges, start, end, i, j, x);
      }
      if Canonical(ranges) {
        TrimIsDifference(ranges, start, end, i, j);
      }
    }
  }
}
