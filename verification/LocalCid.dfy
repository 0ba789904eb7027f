/** The connection IDs provided to the peer (lib/local_cid.c; sections 19.15 and 19.16 of RFC 9000). */
module LocalCids {
  import opened Basics

  const ACTIVE_LIMIT: nat := 4
  const MAX_PATH_ID: nat := 255
  const NO_SEQUENCE: nat := UINT64_MAX

  datatype State = Idle | Pending | InFlight | Delivered

  datatype Entry = Entry(state: State, sequence: nat, cid: nat)

  /** The connection ID that a path ID is encrypted to. It is the path ID itself here: all that matters is that
      different path IDs give different connection IDs. */
  function EncryptCid(pathId: nat): (cid: nat)
  {
    pathId
  }

  /** Issued sequences are distinct and below `pathId`; each is bound to its own connection ID. */
  ghost predicate Issued(cids: seq<Entry>, size: nat, pathId: nat)
  {
    && |cids| == ACTIVE_LIMIT && 1 <= size <= ACTIVE_LIMIT && pathId <= MAX_PATH_ID
    && (forall i :: 0 <= i < |cids| ==>
          if cids[i].state == Idle then cids[i].sequence == NO_SEQUENCE
          else i < size && cids[i].sequence < pathId && cids[i].cid == EncryptCid(cids[i].sequence))
    && (forall i, j :: 0 <= i < j < |cids| && cids[i].state != Idle && cids[j].state != Idle ==>
        cids[i].sequence != cids[j].sequence)
  }

  /** IDs that are held are different connection IDs. */
  lemma DistinctIds(cids: seq<Entry>, size: nat, pathId: nat, i: nat, j: nat)
    requires Issued(cids, size, pathId) && i < j < |cids| && cids[i].state != Idle && cids[j].state != Idle
    ensures cids[i].cid != cids[j].cid && cids[i].sequence != cids[j].sequence && cids[i].sequence < 255
  {
  }

  /** The entries to be sent come first, in the order of the queue. */
  ghost predicate Fifo(cids: seq<Entry>, size: nat, queue: seq<nat>)
  {
    && |queue| <= size <= |cids|
    && (forall k :: 0 <= k < |queue| ==> cids[k].state == Pending && cids[k].sequence == queue[k])
    && (forall k :: |queue| <= k < size ==> cids[k].state != Pending)
  }

  function Swapped(cids: seq<Entry>, i: nat, j: nat): (r: seq<Entry>)
    requires i < |cids| && j < |cids|
  {
    cids[i := cids[j]][j := cids[i]]
  }

  lemma SwapIssued(cids: seq<Entry>, size: nat, pathId: nat, i: nat, j: nat)
    requires Issued(cids, size, pathId) && i < size && j < size
    ensures Issued(Swapped(cids, i, j), size, pathId)
    ensures multiset(Swapped(cids, i, j)) == multiset(cids) && |Swapped(cids, i, j)| == |cids|
            && Swapped(cids, i, j)[j] == cids[i]
  {
  }

  /** The entry with sequence `s`, wherever it is. */
  ghost predicate Has(cids: seq<Entry>, s: nat, st: State)
  {
    exists k :: 0 <= k < |cids| && cids[k].sequence == s && cids[k].state == st && st != Idle
  }

  /** The peer was told of the ID: it was sent, and has been acked or at least not been deemed lost. */
  ghost predicate Told(cids: seq<Entry>, s: nat)
  {
    Has(cids, s, InFlight) || Has(cids, s, Delivered)
  }

  /** The peer was told of an ID that it may still use. */
  ghost predicate PeerHasOne(cids: seq<Entry>)
  {
    exists t :: Told(cids, t)
  }

  /** All entries but the one with sequence `s` are the same, in some order; that one is now in state `st`. */
  ghost predicate OnlyChanges(cids: seq<Entry>, cids': seq<Entry>, s: nat, st: State)
  {
    && Has(cids', s, st)
    && forall t, x :: t != s ==> (Has(cids, t, x) <==> Has(cids', t, x))
  }

  lemma MultisetHas(a: seq<Entry>, b: seq<Entry>)
    requires multiset(a) == multiset(b)
    ensures forall t, x :: Has(a, t, x) <==> Has(b, t, x)
  {
    forall t, x | Has(a, t, x) ensures Has(b, t, x) {
      var k :| 0 <= k < |a| && a[k].sequence == t && a[k].state == x && x != Idle;
      InBoth(a, b, k);
    }
    forall t, x | Has(b, t, x) ensures Has(a, t, x) {
      var k :| 0 <= k < |b| && b[k].sequence == t && b[k].state == x && x != Idle;
      InBoth(b, a, k);
    }
  }

  lemma InBoth(a: seq<Entry>, b: seq<Entry>, k: nat)
    requires multiset(a) == multiset(b) && k < |a|
    ensures exists m :: 0 <= m < |b| && b[m] == a[k]
  {
    assert a[k] in multiset(a);
    assert a[k] in multiset(b);
    assert a[k] in b;
  }

  /** Changing the state of one entry. */
  lemma SetState(cids: seq<Entry>, size: nat, pathId: nat, i: nat, st: State)
    requires Issued(cids, size, pathId) && i < size && cids[i].state != Idle && st != Idle
    ensures var cids' := cids[i := cids[i].(state := st)];
            Issued(cids', size, pathId) && OnlyChanges(cids, cids', cids[i].sequence, st)
  {
    StateSet(cids, i, st);
  }

  lemma StateSet(cids: seq<Entry>, i: nat, st: State)
    requires i < |cids| && st != Idle
    ensures OnlyChanges(cids, cids[i := cids[i].(state := st)], cids[i].sequence, st)
  {
    var cids' := cids[i := cids[i].(state := st)];
    assert cids'[i].state == st;
    forall t, x | t != cids[i].sequence && Has(cids, t, x) ensures Has(cids', t, x) {
      var k :| 0 <= k < |cids| && cids[k].sequence == t && cids[k].state == x;
      assert cids'[k] == cids[k];
    }
    forall t, x | t != cids[i].sequence && Has(cids', t, x) ensures Has(cids, t, x) {
      var k :| 0 <= k < |cids| && cids'[k].sequence == t && cids'[k].state == x;
      assert cids'[k] == cids[k];
    }
  }

  lemma ChangesPermuted(a: seq<Entry>, b: seq<Entry>, c: seq<Entry>, s: nat, st: State)
    requires OnlyChanges(a, b, s, st) && multiset(b) == multiset(c)
    ensures OnlyChanges(a, c, s, st)
  {
    MultisetHas(b, c);
  }

  // ----- the queue -----

  /** Where an entry that becomes pending goes. */
  lemma JoinsQueue(cids: seq<Entry>, size: nat, queue: seq<nat>, i: nat)
    requires Fifo(cids, size, queue) && i < size && cids[i].state != Pending
    ensures |queue| <= i
    ensures var e := cids[i := cids[i].(state := Pending)];
            Fifo(Swapped(e, i, |queue|), size, queue + [cids[i].sequence])
  {
  }

  /** Moving a pending entry back past the next pending one. */
  lemma MovesBack(cids: seq<Entry>, size: nat, queue: seq<nat>, i: nat)
    requires Fifo(cids, size, queue) && i + 1 < |queue|
    ensures Fifo(Swapped(cids, i, i + 1), size, queue[i := queue[i + 1]][i + 1 := queue[i]])
  {
  }

  /** The last pending entry ceases to be pending. */
  lemma LeavesQueue(cids: seq<Entry>, size: nat, queue: seq<nat>, i: nat, st: State)
    requires Fifo(cids, size, queue) && i + 1 == |queue| && st != Pending
    ensures Fifo(cids[i := cids[i].(state := st)], size, queue[..i])
  {
  }

  /** `q` is `q0` with the element at `i` moved back to `j`. */
  ghost predicate Rotated(q: seq<nat>, q0: seq<nat>, i: nat, j: nat)
  {
    && i <= j < |q0| == |q| && q[j] == q0[i]
    && (forall k :: 0 <= k < i || j < k < |q| ==> q[k] == q0[k])
    && (forall k :: i <= k < j ==> q[k] == q0[k + 1])
  }

  lemma RotatedMore(q: seq<nat>, q0: seq<nat>, i: nat, j: nat)
    requires Rotated(q, q0, i, j) && j + 1 < |q|
    ensures Rotated(q[j := q[j + 1]][j + 1 := q[j]], q0, i, j + 1)
  {
  }

  lemma RotatedAll(q: seq<nat>, q0: seq<nat>, i: nat)
    requires |q0| > 0 && Rotated(q, q0, i, |q0| - 1)
    ensures q[..|q0| - 1] == Remove(q0, i)
  {
  }

  /** The entry at `i` has followers in the queue just as long as the next entry is pending. */
  lemma NextPending(cids: seq<Entry>, size: nat, queue: seq<nat>, i: nat)
    requires Fifo(cids, size, queue) && i < |queue|
    ensures i + 1 < size && cids[i + 1].state == Pending <==> i + 1 < |queue|
    ensures cids[i].state == Pending && cids[i].sequence == queue[i]
  {
  }

  function Remove(queue: seq<nat>, i: nat): (r: seq<nat>)
    requires i < |queue|
  {
    queue[..i] + queue[i + 1..]
  }

  /** `q` is `q0` without `s`, in the same order. */
  ghost predicate QueueWithout(q: seq<nat>, q0: seq<nat>, s: nat)
  {
    if s in q0 then exists i :: 0 <= i < |q0| && q0[i] == s && q == Remove(q0, i) else q == q0
  }

  class LocalCidSet {
    var cids: seq<Entry>
    var size: nat
    var pathId: nat
    /** the pending sequences, in the order in which they became pending */
    ghost var queue: seq<nat>

    ghost predicate Valid()
      reads this
    {
      Issued(cids, size, pathId) && Fifo(cids, size, queue) && exists k :: 0 <= k < size && cids[k].state != Idle
    }

    /** The set starts with one connection ID, which its use delivers to the peer. */
    constructor ()
      ensures |cids| == 4 && Valid() && size == 1 && queue == [] && pathId == 1
              && cids[0] == Entry(Delivered, 0, EncryptCid(0))
    {
      cids := [Entry(Delivered, 0, EncryptCid(0)), Entry(Idle, NO_SEQUENCE, 0), Entry(Idle, NO_SEQUENCE, 0),
               Entry(Idle, NO_SEQUENCE, 0)];
      size, pathId, queue := 1, 1, [];
    }

    predicate HasPending()
      requires |cids| > 0
      reads this
    {
      cids[0].state == Pending
    }

    /** Whether there is something to send is whether the queue is not empty. */
    lemma PendingIsQueue()
      requires Valid()
      ensures HasPending() <==> queue != []
    {
    }

    /** Puts an entry at the end of the queue, unless it is in the queue. */
    method DoMarkPending(idx: nat)
      requires idx < size <= |cids| && Issued(cids[idx := cids[idx].(state := Pending)], size, pathId)
               && Fifo(cids, size, queue)
      modifies this`cids, this`queue
      ensures Issued(cids, size, pathId) && Fifo(cids, size, queue)
      ensures if old(cids)[idx].state == Pending then cids == old(cids) && queue == old(queue)
              else && queue == old(queue) + [old(cids)[idx].sequence] && |old(queue)| <= idx
                   && cids == Swapped(old(cids)[idx := old(cids)[idx].(state := Pending)], idx, |old(queue)|)
      ensures OnlyChanges(old(cids), cids, old(cids)[idx].sequence, Pending)
    {
      hide Issued, Has, OnlyChanges;
      ghost var cids0 := cids;
      StateSet(cids, idx, Pending);
      cids := cids[idx := cids[idx].(state := Pending)];
      if cids0[idx].state != Pending {
        JoinsQueue(cids0, size, queue, idx);
        queue := queue + [cids0[idx].sequence];
      } else {
        assert cids == cids0;
      }
      ghost var n := |old(queue)|;
      ghost var e := cids;
      var j := 0;
      while j < idx
        invariant j <= idx && cids == e && forall k :: 0 <= k < j ==> cids[k].state == Pending
        invariant cids0[idx].state != Pending ==> j <= n
      {
        if cids[j].state != Pending {
          SwapIssued(cids, size, pathId, idx, j);
          ChangesPermuted(cids0, cids, Swapped(cids, idx, j), cids0[idx].sequence, Pending);
          cids := Swapped(cids, idx, j);
          return;
        }
        j := j + 1;
      }
      assert cids0[idx].state != Pending ==> Swapped(e, idx, n) == e;
    }

    static lemma IssuedSize(cids: seq<Entry>, size: nat, pathId: nat)
      requires Issued(cids, size, pathId)
      ensures |cids| == ACTIVE_LIMIT && 1 <= size <= ACTIVE_LIMIT && pathId <= MAX_PATH_ID
    {
    }

    /** Takes an entry out of the queue, if it is there, without disturbing the order of the rest. */
    method DoMarkDelivered(idx0: nat)
      requires Valid() && idx0 < size && cids[idx0].state != Idle
      modifies this`cids, this`queue
      ensures Valid() && OnlyChanges(old(cids), cids, old(cids)[idx0].sequence, Delivered)
      ensures queue == if idx0 < |old(queue)| then Remove(old(queue), idx0) else old(queue)
      ensures idx0 < |old(queue)| ==> old(queue)[idx0] == old(cids)[idx0].sequence
    {
      hide Issued, Has, OnlyChanges, Fifo;
      IssuedSize(cids, size, pathId);
      InQueue(idx0);
      var idx := idx0;
      ghost var c0 := cids;
      if cids[idx].state == Pending {
        idx := MoveBack(idx);
        LeavesQueue(cids, size, queue, idx, Delivered);
        queue := queue[..idx];
      } else {
        NotInQueue(cids, size, queue, idx, Delivered);
      }
      SetState(cids, size, pathId, idx, Delivered);
      PermutedChanges(c0, cids, cids[idx := cids[idx].(state := Delivered)], c0[idx0].sequence, Delivered);
      cids := cids[idx := cids[idx].(state := Delivered)];
      assert cids[idx].state == Delivered;
    }

    /** Moves a pending entry behind all the others that are pending. */
    method MoveBack(idx0: nat) returns (idx: nat)
      requires Issued(cids, size, pathId) && Fifo(cids, size, queue) && idx0 < |queue|
      modifies this`cids, this`queue
      ensures Issued(cids, size, pathId) && Fifo(cids, size, queue) && |cids| == |old(cids)|
              && idx + 1 == |queue| == |old(queue)|
      ensures idx < size <= |cids| && multiset(cids) == multiset(old(cids)) && cids[idx] == old(cids)[idx0]
      ensures queue[..idx] == Remove(old(queue), idx0)
    {
      hide Issued, Fifo, Rotated, Swapped;
      IssuedSize(cids, size, pathId);
      QueueFits(cids, size, queue);
      idx := idx0;
      ghost var q0, c0 := queue, cids;
      RotatedNone(queue, idx0);
      NextPending(cids, size, queue, idx);
      while idx + 1 < size && cids[idx + 1].state == Pending
        invariant |cids| == ACTIVE_LIMIT && idx0 <= idx < |queue| == |q0| && Issued(cids, size, pathId)
                  && Fifo(cids, size, queue)
        invariant idx < size && |q0| <= size <= |cids| == |c0|
        invariant multiset(cids) == multiset(c0) && cids[idx] == c0[idx0] && Rotated(queue, q0, idx0, idx)
        invariant idx + 1 < size && cids[idx + 1].state == Pending <==> idx + 1 < |queue|
      {
        SwapIssued(cids, size, pathId, idx, idx + 1);
        MovesBack(cids, size, queue, idx);
        RotatedMore(queue, q0, idx0, idx);
        queue := queue[idx := queue[idx + 1]][idx + 1 := queue[idx]];
        cids := Swapped(cids, idx, idx + 1);
        idx := idx + 1;
        NextPending(cids, size, queue, idx);
      }
      RotatedAll(queue, q0, idx0);
    }

    static lemma QueueFits(cids: seq<Entry>, size: nat, queue: seq<nat>)
      requires Fifo(cids, size, queue)
      ensures |queue| <= size <= |cids|
    {
    }

    lemma InQueue(i: nat)
      requires Issued(cids, size, pathId) && Fifo(cids, size, queue) && i < size
      ensures cids[i].state == Pending <==> i < |queue|
      ensures i < |queue| ==> queue[i] == cids[i].sequence
      ensures |queue| <= size
    {
    }

    static lemma RotatedNone(q: seq<nat>, i: nat)
      requires i < |q|
      ensures Rotated(q, q, i, i)
    {
    }

    static lemma NotInQueue(cids: seq<Entry>, size: nat, queue: seq<nat>, i: nat, st: State)
      requires Fifo(cids, size, queue) && i < size && cids[i].state != Pending && st != Pending
      ensures Fifo(cids[i := cids[i].(state := st)], size, queue)
    {
    }

    static lemma PermutedChanges(a: seq<Entry>, b: seq<Entry>, c: seq<Entry>, s: nat, st: State)
      requires OnlyChanges(b, c, s, st) && multiset(a) == multiset(b)
      ensures OnlyChanges(a, c, s, st)
    {
      MultisetHas(a, b);
    }

    /** The entry that has been issued with `sequence`; -1 if there is none. */
    method FindIndex(sequence: nat) returns (i: int)
      requires Valid() && sequence < NO_SEQUENCE
      ensures -1 <= i < size
      ensures i >= 0 ==> cids[i].sequence == sequence && cids[i].state != Idle
      ensures i == -1 ==> forall st :: !Has(cids, sequence, st)
    {
      i := 0;
      while i < size
        invariant 0 <= i <= size && forall k :: 0 <= k < i ==> cids[k].sequence != sequence
      {
        if cids[i].sequence == sequence {
          return;
        }
        i := i + 1;
      }
      i := -1;
    }

    /** A NEW_CONNECTION_ID frame was acked; if the ID has become pending since, it no longer needs to be sent. */
    method OnAcked(sequence: nat)
      requires Valid() && sequence < NO_SEQUENCE
      modifies this`cids, this`queue
      ensures Valid()
      ensures (forall st :: !Has(old(cids), sequence, st)) ==> cids == old(cids) && queue == old(queue)
      ensures (exists st :: Has(old(cids), sequence, st)) ==> OnlyChanges(old(cids), cids, sequence, Delivered)
      ensures QueueWithout(queue, old(queue), sequence)
    {
      QueueHas();
      var i := FindIndex(sequence);
      if i == -1 {
        return;
      }
      assert Has(cids, sequence, cids[i].state);
      DoMarkDelivered(i);
    }

    /** What is queued has been issued, and is the only entry with its sequence. */
    lemma QueueHas()
      requires Valid()
      ensures forall k :: 0 <= k < |queue| ==> Has(cids, queue[k], Pending)
      ensures forall i, k :: 0 <= k < |queue| && 0 <= i < size ==>
                (cids[i].state != Idle && cids[i].sequence == queue[k] ==> i == k)
    {
      forall k | 0 <= k < |queue| ensures Has(cids, queue[k], Pending) {
        assert cids[k].state == Pending && cids[k].sequence == queue[k];
      }
    }

    /** A NEW_CONNECTION_ID frame was lost: the ID is queued again, unless it was delivered or is queued already. */
    method OnLost(sequence: nat) returns (pending: bool)
      requires Valid() && sequence < NO_SEQUENCE
      modifies this`cids, this`queue
      ensures Valid() && pending == (queue != [])
      ensures queue == if Has(old(cids), sequence, InFlight) then old(queue) + [sequence] else old(queue)
      ensures !Has(old(cids), sequence, InFlight) ==> cids == old(cids)
      ensures Has(old(cids), sequence, InFlight) ==> OnlyChanges(old(cids), cids, sequence, Pending)
    {
      var i := FindIndex(sequence);
      if i == -1 {
        PendingIsQueue();
        return HasPending();
      }
      OneState(i);
      if cids[i].state == Delivered {
        PendingIsQueue();
        return HasPending();
      }
      SetState(cids, size, pathId, i, Pending);
      DoMarkPending(i);
      StillIssued(old(cids), cids, sequence, Pending);
      PendingIsQueue();
      return true;
    }

    lemma OneState(i: nat)
      requires Valid() && i < size && cids[i].state != Idle
      ensures forall st :: Has(cids, cids[i].sequence, st) <==> st == cids[i].state
    {
    }

    lemma StillIssued(a: seq<Entry>, b: seq<Entry>, s: nat, st: State)
      requires Issued(b, size, pathId) && OnlyChanges(a, b, s, st)
      ensures exists k :: 0 <= k < size && b[k].state != Idle
    {
      var k :| 0 <= k < |b| && b[k].sequence == s && b[k].state == st && st != Idle;
    }

    /** The first `n` IDs of the queue were sent. */
    method OnSent(n: nat)
      requires Valid() && n <= |queue|
      modifies this`cids, this`queue
      ensures Valid() && queue == old(queue)[n..]
      ensures forall t, x :: Has(cids, t, x) <==> if t in old(queue)[..n] then x == InFlight else Has(old(cids), t, x)
    {
      hide Issued, Has, Sent, Sending;
      ghost var c0, q0 := cids, queue;
      IssuedSize(cids, size, pathId);
      QueueFits(cids, size, queue);
      MarkSent(n);
      ghost var c1 := cids;
      SentHas(c0, size, pathId, q0, n);
      SendingStart(c0, size, q0, n);
      var i := n;
      while i < size && cids[i].state == Pending
        invariant n <= i <= |q0| && |cids| == |c1| == ACTIVE_LIMIT && multiset(cids) == multiset(c1)
                  && Issued(cids, size, pathId)
        invariant Sending(cids, size, q0, n, i)
      {
        SendingMove(cids, size, q0, n, i);
        SwapIssued(cids, size, pathId, i, i - n);
        cids := Swapped(cids, i, i - n);
        i := i + 1;
      }
      SendingDone(cids, size, q0, n, i);
      queue := q0[n..];
      MultisetHas(cids, c1);
      NotAllIdle(c0, c1, cids, size, pathId, q0, n);
    }

    /** The first `n` entries are marked as in flight. */
    method MarkSent(n: nat)
      requires Issued(cids, size, pathId) && Fifo(cids, size, queue) && n <= |queue|
      modifies this`cids
      ensures Issued(cids, size, pathId) && cids == Sent(old(cids), n)
    {
      hide Issued;
      ghost var c0 := cids;
      IssuedSize(cids, size, pathId);
      SentNone(c0);
      var i := 0;
      while i < n
        invariant i <= n && |cids| == |c0| == ACTIVE_LIMIT && Issued(cids, size, pathId) && cids == Sent(c0, i)
      {
        SetState(cids, size, pathId, i, InFlight);
        cids := cids[i := cids[i].(state := InFlight)];
        i := i + 1;
        assert cids == Sent(c0, i);
      }
    }

    static lemma SentNone(cids: seq<Entry>)
      ensures Sent(cids, 0) == cids
    {
    }

    static lemma NotAllIdle(c0: seq<Entry>, c1: seq<Entry>, c: seq<Entry>, size: nat, pathId: nat, q0: seq<nat>, n: nat)
      requires Issued(c0, size, pathId) && n <= |c0| && c1 == Sent(c0, n) && multiset(c) == multiset(c1)
               && Issued(c, size, pathId)
      requires exists k :: 0 <= k < size && c0[k].state != Idle
      ensures exists k :: 0 <= k < size && c[k].state != Idle
    {
      var k :| 0 <= k < size && c0[k].state != Idle;
      InBoth(c1, c, k);
      var m :| 0 <= m < |c| && c[m] == c1[k];
      assert c[m].state != Idle;
    }

    /** Fills an idle entry with the next connection ID, if there is one. */
    method GenerateCid(i: nat) returns (ok: bool)
      requires Issued(cids, size, pathId) && i < size && cids[i].state == Idle
      modifies this`cids, this`pathId
      ensures ok <==> old(pathId) < 255
      ensures if ok then && pathId == old(pathId) + 1
                         && cids == old(cids)[i := Entry(Idle, old(pathId), EncryptCid(old(pathId)))]
                         && Issued(cids[i := cids[i].(state := Pending)], size, pathId)
              else cids == old(cids) && pathId == old(pathId)
    {
      if pathId >= MAX_PATH_ID {
        return false;
      }
      cids := cids[i := Entry(Idle, pathId, EncryptCid(pathId))];
      pathId := pathId + 1;
      return true;
    }

    /** Issues the next connection ID, if there is one, in an entry that is free. */
    method IssueAt(i: nat) returns (ok: bool)
      requires Issued(cids, size, pathId) && Fifo(cids, size, queue) && i < size && cids[i].state == Idle
      modifies this`cids, this`pathId, this`queue
      ensures ok <==> old(pathId) < 255
      ensures Issued(cids, size, pathId) && Fifo(cids, size, queue) && |cids| == |old(cids)|
      ensures !ok ==> cids == old(cids) && pathId == old(pathId) && queue == old(queue)
      ensures ok ==> && pathId == old(pathId) + 1 && queue == old(queue) + [old(pathId)]
                     && (forall t: nat, x :: Has(cids, t, x) <==>
                         Has(old(cids), t, x) || (t == old(pathId) && x == Pending))
                     && (forall k :: 0 <= k < |cids| && cids[k].state == Idle ==>
                           if k == i then |old(queue)| < i && old(cids)[|old(queue)|].state == Idle
                               else old(cids)[k].state == Idle)
                     && exists k :: 0 <= k < size && cids[k].state != Idle
    {
      hide Has, OnlyChanges, Issued, Fifo;
      ghost var c0, p0, n := cids, pathId, |queue|;
      IssuedSize(cids, size, pathId);
      QueueFits(cids, size, queue);
      FirstAfter(cids, size, queue);
      ok := GenerateCid(i);
      if ok {
        FilledFifo(c0, size, queue, i, Entry(Idle, p0, EncryptCid(p0)));
        DoMarkPending(i);
        IssuedOne(c0, i, p0, cids, size);
        assert cids[n].state == Pending;
      }
    }

    /** What comes right after the queue is not pending. */
    static lemma FirstAfter(cids: seq<Entry>, size: nat, queue: seq<nat>)
      requires Fifo(cids, size, queue)
      ensures |queue| < size ==> cids[|queue|].state != Pending
      ensures forall k :: 0 <= k < |queue| ==> cids[k].state == Pending
    {
    }

    /** Allows for more IDs, and issues new ones for all entries that are free. */
    method SetSize(newSize: nat) returns (pending: bool)
      requires Valid() && size <= newSize <= ACTIVE_LIMIT
      modifies this
      ensures Valid() && size == newSize && old(pathId) <= pathId
      ensures queue == old(queue) + NewIds(old(pathId), pathId)
      ensures pending <==> old(pathId) < pathId
      ensures pathId == 255 || forall k :: 0 <= k < size ==> cids[k].state != Idle
      ensures forall t: nat, x :: Has(cids, t, x) <==>
                Has(old(cids), t, x) || (old(pathId) <= t < pathId && x == Pending)
    {
      hide Has, OnlyChanges, NewOnes, Issued, Fifo;
      IssuedSize(cids, size, pathId);
      Enlarged(cids, size, newSize, pathId, queue);
      size := newSize;
      pending := false;
      ghost var q0, p0, c0 := queue, pathId, cids;
      NewNone(q0, p0, c0);
      var i := 0;
      while i < newSize
        invariant i <= newSize == size && Valid() && p0 <= pathId && (pending <==> p0 < pathId)
        invariant NewOnes(q0, p0, c0, queue, pathId, cids)
        invariant |cids| == ACTIVE_LIMIT && forall k :: 0 <= k < i ==> cids[k].state != Idle
      {
        if cids[i].state == Idle {
          ghost var q1, p1, c1 := queue, pathId, cids;
          IssuedSize(cids, size, pathId);
          var ok := IssueAt(i);
          if !ok {
            NewOnesAre(q0, p0, c0, queue, pathId, cids);
            return;
          }
          NewOne(q0, p0, c0, q1, p1, c1, cids);
          pending := true;
        }
        i := i + 1;
      }
      NewOnesAre(q0, p0, c0, queue, pathId, cids);
    }

    /** Where the ID to be retired is, `size` if nowhere, and whether there is no other one. */
    method FindRetired(sequence: nat) returns (at: nat, empty: bool)
      requires Valid() && sequence < NO_SEQUENCE
      ensures at <= size
      ensures at == size <==> forall st :: !Has(cids, sequence, st)
      ensures at < size ==> cids[at].sequence == sequence && cids[at].state != Idle
      ensures empty <==> forall t, x :: t != sequence ==> !Has(cids, t, x)
    {
      at, empty := size, true;
      var i := 0;
      while i < size
        invariant i <= size && at <= size
        invariant at < size ==> at < i && cids[at].sequence == sequence && cids[at].state != Idle
        invariant at == size ==> forall k :: 0 <= k < i && cids[k].state != Idle ==> cids[k].sequence != sequence
        invariant empty <==> forall k :: 0 <= k < i && cids[k].state != Idle ==> cids[k].sequence == sequence
      {
        if cids[i].state != Idle {
          if cids[i].sequence == sequence {
            at := i;
          } else {
            empty := false;
          }
        }
        i := i + 1;
      }
      FoundRetired(cids, size, pathId, sequence, at, empty);
    }

    static lemma FoundRetired(cids: seq<Entry>, size: nat, pathId: nat, sequence: nat, at: nat, empty: bool)
      requires Issued(cids, size, pathId) && at <= size
      requires at < size ==> cids[at].sequence == sequence && cids[at].state != Idle
      requires at == size ==> forall k :: 0 <= k < size && cids[k].state != Idle ==> cids[k].sequence != sequence
      requires empty <==> forall k :: 0 <= k < size && cids[k].state != Idle ==> cids[k].sequence == sequence
      ensures at == size <==> forall st :: !Has(cids, sequence, st)
      ensures empty <==> forall t, x :: t != sequence ==> !Has(cids, t, x)
    {
      assert at < size ==> Has(cids, sequence, cids[at].state);
      forall k | 0 <= k < size && cids[k].state != Idle ensures Has(cids, cids[k].sequence, cids[k].state) {
      }
    }

    /** Takes an ID out, and moves the entry behind those that are pending. */
    method TakeOut(at0: nat) returns (at: nat)
      requires Valid() && at0 < size && cids[at0].state != Idle
      modifies this`cids, this`queue
      ensures Issued(cids, size, pathId) && Fifo(cids, size, queue) && at < size && cids[at].state == Idle
      ensures forall t, x :: Has(cids, t, x) <==> t != old(cids)[at0].sequence && Has(old(cids), t, x)
      ensures QueueWithout(queue, old(queue), old(cids)[at0].sequence)
    {
      hide Issued, Has, Gap, Fifo;
      IssuedSize(cids, size, pathId);
      QueueUnique(at0);
      QueueFits(cids, size, queue);
      ghost var c0, q0 := cids, queue;
      Cleared(cids, size, pathId, at0);
      cids := cids[at0 := Entry(Idle, NO_SEQUENCE, cids[at0].cid)];
      ghost var c1 := cids;
      GapStart(c0, size, q0, at0, c1);
      queue := if at0 < |q0| then Remove(q0, at0) else q0;
      at := MoveGap(at0, q0);
      MultisetHas(cids, c1);
    }

    /** Moves the entry at `at0`, which has just become idle, behind those that are pending. */
    method MoveGap(at0: nat, ghost q: seq<nat>) returns (at: nat)
      requires Issued(cids, size, pathId) && at0 < size && cids[at0].state == Idle && Gap(cids, size, q, at0, at0)
      modifies this`cids
      ensures Issued(cids, size, pathId) && at < size <= |cids| && cids[at].state == Idle
              && multiset(cids) == multiset(old(cids))
      ensures Fifo(cids, size, if at0 < |q| then Remove(q, at0) else q)
    {
      hide Issued, Gap, Fifo, Swapped;
      IssuedSize(cids, size, pathId);
      at := at0;
      var i := at0 + 1;
      while i < size && cids[i].state == Pending
        invariant i == at + 1 && at0 <= at < size <= |cids| && multiset(cids) == multiset(old(cids))
        invariant Issued(cids, size, pathId) && cids[at].state == Idle && Gap(cids, size, q, at0, at)
      {
        GapMove(cids, size, q, at0, at);
        SwapIssued(cids, size, pathId, i, at);
        SwapBack(cids, i, at);
        cids := Swapped(cids, i, at);
        at := i;
        i := i + 1;
      }
      GapEnd(cids, size, q, at0, at);
    }

    static lemma SwapBack(cids: seq<Entry>, i: nat, j: nat)
      requires i < |cids| && j < |cids|
      ensures Swapped(cids, i, j)[i] == cids[j]
    {
    }

    lemma QueueUnique(i: nat)
      requires Valid() && i < size && cids[i].state != Idle
      ensures if i < |queue| then queue[i] == cids[i].sequence else cids[i].sequence !in queue
    {
      forall k | 0 <= k < |queue| && k != i ensures queue[k] != cids[i].sequence {
        assert cids[k].sequence == queue[k];
      }
    }

    /** The peer has retired an ID: it is replaced by a new one, if one is left, at the end of the queue. The peer must
        not retire the only ID there is; yet, as those that were never sent count, it may be left with none that it was
        told of. */
    method Retire(sequence: nat) returns (violation: bool, pending: bool)
      requires Valid() && sequence < NO_SEQUENCE
      modifies this
      ensures Valid() && size == old(size)
      ensures violation <==>
                (exists st :: Has(old(cids), sequence, st)) && forall t, x :: t != sequence ==> !Has(old(cids), t, x)
      ensures violation || (forall st :: !Has(old(cids), sequence, st)) ==>
                cids == old(cids) && queue == old(queue) && pathId == old(pathId)
      ensures !violation ==> pending == (queue != [])
      ensures !violation && (exists st :: Has(old(cids), sequence, st)) ==>
                && pathId == (if old(pathId) < 255 then old(pathId) + 1 else old(pathId))
                && (forall t: nat, x :: Has(cids, t, x) <==>
                      (t != sequence && Has(old(cids), t, x)) || (old(pathId) <= t < pathId && x == Pending))
                && (exists t, x :: t != sequence && Has(cids, t, x))
                && exists q :: QueueWithout(q, old(queue), sequence) && queue == q + NewIds(old(pathId), pathId)
      ensures !violation ==> (PeerHasOne(cids) <==> exists t :: t != sequence && Told(old(cids), t))
    {
      hide Issued, Has, Fifo, QueueWithout, NewIds, OnlyChanges;
      var at, empty := FindRetired(sequence);
      IssuedSize(cids, size, pathId);
      PendingIsQueue();
      violation, pending := false, HasPending();
      ghost var c0, p0 := cids, pathId;
      if at == size {
        ToldAfter(c0, c0, sequence, p0, p0);
        return;
      }
      if empty {
        violation := true;
        return;
      }
      ReplaceAt(at);
      ToldAfter(c0, cids, sequence, p0, pathId);
      IssuedSize(cids, size, pathId);
      PendingIsQueue();
      pending := HasPending();
    }

    static lemma ToldAfter(c0: seq<Entry>, c: seq<Entry>, s: nat, p0: nat, p: nat)
      requires forall t: nat, x :: Has(c, t, x) <==> (t != s && Has(c0, t, x)) || (p0 <= t < p && x == Pending)
      ensures PeerHasOne(c) <==> exists t :: t != s && Told(c0, t)
    {
      hide Has;
      forall t: nat ensures Told(c, t) <==> t != s && Told(c0, t) {
        assert Has(c, t, InFlight) <==> t != s && Has(c0, t, InFlight);
        assert Has(c, t, Delivered) <==> t != s && Has(c0, t, Delivered);
      }
    }

    /** Retiring the first ID before the new ones are sent is no violation, and leaves the peer without any ID. */
    static method RetiredTooEarly() returns (ids: LocalCidSet, violation: bool)
      ensures ids.Valid() && !violation && !PeerHasOne(ids.cids) && exists t :: Has(ids.cids, t, Pending)
    {
      hide Issued, Fifo, QueueWithout, OnlyChanges, Has;
      ids := new LocalCidSet();
      OnlyFirst(ids.cids);
      var pending := ids.SetSize(ACTIVE_LIMIT);
      IssuedSize(ids.cids, ids.size, ids.pathId);
      if ids.pathId != MAX_PATH_ID {
        AnotherOne(ids.cids, ids.pathId);
      }
      assert Has(ids.cids, 1, Pending);
      violation, pending := ids.Retire(0);
      assert Has(ids.cids, 1, Pending);
    }

    static lemma OnlyFirst(cids: seq<Entry>)
      requires Issued(cids, 1, 1) && cids[0] == Entry(Delivered, 0, EncryptCid(0))
      ensures forall t, x :: Has(cids, t, x) <==> t == 0 && x == Delivered
    {
    }

    static lemma AnotherOne(cids: seq<Entry>, pathId: nat)
      requires Issued(cids, ACTIVE_LIMIT, pathId) && forall k :: 0 <= k < ACTIVE_LIMIT ==> cids[k].state != Idle
      ensures exists t, x :: t != 0 && Has(cids, t, x)
    {
      var k := if cids[0].sequence == 0 then 1 else 0;
      assert Has(cids, cids[k].sequence, cids[k].state);
    }

    /** The second half of `Retire`. */
    method ReplaceAt(at0: nat)
      requires Valid() && at0 < size && cids[at0].state != Idle
      requires !forall t, x :: t != cids[at0].sequence ==> !Has(cids, t, x)
      modifies this
      ensures Valid() && size == old(size)
      ensures pathId == if old(pathId) < 255 then old(pathId) + 1 else old(pathId)
      ensures var s := old(cids)[at0].sequence;
              && (forall t: nat, x :: Has(cids, t, x) <==>
                  (t != s && Has(old(cids), t, x)) || (old(pathId) <= t < pathId && x == Pending))
              && (exists t, x :: t != s && Has(cids, t, x))
              && exists q :: QueueWithout(q, old(queue), s) && queue == q + NewIds(old(pathId), pathId)
    {
      hide Issued, Has, Fifo, QueueWithout, NewIds, OnlyChanges;
      ghost var c0, p0 := cids, pathId;
      IssuedSize(cids, size, pathId);
      var at := TakeOut(at0);
      IssuedSize(cids, size, pathId);
      ghost var c1, q1 := cids, queue;
      NoNewIds(p0);
      var ok := IssueAt(at);
      SomeLeft(c0, cids, size, pathId, c0[at0].sequence);
      assert queue == q1 + NewIds(p0, pathId);
    }

    static lemma NoNewIds(p: nat)
      ensures NewIds(p, p) == [] && NewIds(p, p + 1) == [p]
    {
    }
  }

  function Sent(cids: seq<Entry>, n: nat): (r: seq<Entry>)
    ensures |r| == |cids|
  {
    seq(|cids|, i requires 0 <= i < |cids| => if i < n then cids[i].(state := InFlight) else cids[i])
  }

  lemma SentHas(c0: seq<Entry>, size: nat, pathId: nat, q0: seq<nat>, n: nat)
    requires Issued(c0, size, pathId) && Fifo(c0, size, q0) && n <= |q0|
    ensures forall t, x :: Has(Sent(c0, n), t, x) <==> if t in q0[..n] then x == InFlight else Has(c0, t, x)
  {
    var c1 := Sent(c0, n);
    forall k | 0 <= k < n ensures c0[k].sequence in q0[..n] {
      assert q0[..n][k] == c0[k].sequence;
    }
    forall t, x ensures Has(c1, t, x) <==> if t in q0[..n] then x == InFlight else Has(c0, t, x) {
      if t in q0[..n] {
        var k :| 0 <= k < n && q0[..n][k] == t;
        assert c1[k].sequence == t && c1[k].state == InFlight;
      } else {
        if Has(c0, t, x) {
          var k :| 0 <= k < |c0| && c0[k].sequence == t && c0[k].state == x;
          assert c1[k] == c0[k];
        }
        if Has(c1, t, x) {
          var k :| 0 <= k < |c1| && c1[k].sequence == t && c1[k].state == x;
          assert c1[k] == c0[k];
        }
      }
    }
  }

  /** The pending entries from `n` up to `i` have been moved to the front. */
  ghost predicate Sending(cids: seq<Entry>, size: nat, q: seq<nat>, n: nat, i: nat)
  {
    && n <= i <= |q| <= size <= |cids|
    && (forall k :: 0 <= k < i - n ==> cids[k].state == Pending && cids[k].sequence == q[k + n])
    && (forall k :: i - n <= k < i ==> cids[k].state != Pending)
    && (forall k :: i <= k < |q| ==> cids[k].state == Pending && cids[k].sequence == q[k])
    && (forall k :: |q| <= k < size ==> cids[k].state != Pending)
  }

  lemma SendingStart(c0: seq<Entry>, size: nat, q: seq<nat>, n: nat)
    requires Fifo(c0, size, q) && n <= |q|
    ensures Sending(Sent(c0, n), size, q, n, n)
  {
  }

  lemma SendingMove(cids: seq<Entry>, size: nat, q: seq<nat>, n: nat, i: nat)
    requires Sending(cids, size, q, n, i) && i < size && cids[i].state == Pending
    ensures i < |q| && Sending(Swapped(cids, i, i - n), size, q, n, i + 1)
  {
  }

  lemma SendingDone(cids: seq<Entry>, size: nat, q: seq<nat>, n: nat, i: nat)
    requires Sending(cids, size, q, n, i) && (i == size || cids[i].state != Pending)
    ensures i == |q| && Fifo(cids, size, q[n..])
  {
  }

  // ----- issuing and retiring -----

  ghost function NewIds(p0: nat, p: nat): (r: seq<nat>)
  {
    if p <= p0 then [] else NewIds(p0, p - 1) + [p - 1]
  }

  /** Since the start, the sequences from `p0` up to `p` were issued, and nothing else has changed. */
  ghost predicate NewOnes(q0: seq<nat>, p0: nat, c0: seq<Entry>, q: seq<nat>, p: nat, c: seq<Entry>)
  {
    && p0 <= p && q == q0 + NewIds(p0, p)
    && forall t: nat, x :: Has(c, t, x) <==> Has(c0, t, x) || (p0 <= t < p && x == Pending)
  }

  lemma NewNone(q0: seq<nat>, p0: nat, c0: seq<Entry>)
    ensures NewOnes(q0, p0, c0, q0, p0, c0)
  {
  }

  lemma NewOnesAre(q0: seq<nat>, p0: nat, c0: seq<Entry>, q: seq<nat>, p: nat, c: seq<Entry>)
    requires NewOnes(q0, p0, c0, q, p, c)
    ensures q == q0 + NewIds(p0, p)
    ensures forall t: nat, x :: Has(c, t, x) <==> Has(c0, t, x) || (p0 <= t < p && x == Pending)
  {
  }

  /** The entries beyond the old size are idle. */
  lemma Enlarged(cids: seq<Entry>, size: nat, newSize: nat, pathId: nat, queue: seq<nat>)
    requires Issued(cids, size, pathId) && Fifo(cids, size, queue) && size <= newSize <= ACTIVE_LIMIT
    ensures Issued(cids, newSize, pathId) && Fifo(cids, newSize, queue)
  {
  }

  lemma FilledFifo(cids: seq<Entry>, size: nat, queue: seq<nat>, i: nat, e: Entry)
    requires Fifo(cids, size, queue) && i < size && cids[i].state == Idle && e.state == Idle
    ensures Fifo(cids[i := e], size, queue)
  {
  }

  /** Filling an idle entry makes no difference to what is issued until its state changes. */
  lemma FilledHas(cids: seq<Entry>, i: nat, e: Entry)
    requires i < |cids| && cids[i].state == Idle && e.state == Idle
    ensures forall t, x :: Has(cids[i := e], t, x) <==> Has(cids, t, x)
  {
    var cids' := cids[i := e];
    forall t, x ensures Has(cids', t, x) <==> Has(cids, t, x) {
      if Has(cids, t, x) {
        var k :| 0 <= k < |cids| && cids[k].sequence == t && cids[k].state == x && x != Idle;
        assert cids'[k] == cids[k];
      }
      if Has(cids', t, x) {
        var k :| 0 <= k < |cids| && cids'[k].sequence == t && cids'[k].state == x && x != Idle;
        assert cids'[k] == cids[k];
      }
    }
  }

  /** What issuing the sequence `p` into the entry `i` does. */
  lemma IssuedOne(c1: seq<Entry>, i: nat, p: nat, c: seq<Entry>, size: nat)
    requires i < |c1| && c1[i].state == Idle && Issued(c1, size, p) && p < MAX_PATH_ID && Issued(c, size, p + 1)
    requires OnlyChanges(c1[i := Entry(Idle, p, EncryptCid(p))], c, p, Pending)
    ensures forall t, x :: Has(c, t, x) <==> Has(c1, t, x) || (t == p && x == Pending)
  {
    FilledHas(c1, i, Entry(Idle, p, EncryptCid(p)));
    forall t, x ensures Has(c, t, x) <==> Has(c1, t, x) || (t == p && x == Pending) {
      if t == p {
        assert !Has(c1, p, x);
        OneStateOnly(c, size, p + 1, p, x);
      }
    }
  }

  lemma OneStateOnly(c: seq<Entry>, size: nat, pathId: nat, s: nat, x: State)
    requires Issued(c, size, pathId) && Has(c, s, Pending)
    ensures Has(c, s, x) <==> x == Pending
  {
  }

  lemma NewOne(q0: seq<nat>, p0: nat, c0: seq<Entry>, q1: seq<nat>, p: nat, c1: seq<Entry>, c: seq<Entry>)
    requires NewOnes(q0, p0, c0, q1, p, c1)
    requires forall t, x :: Has(c, t, x) <==> Has(c1, t, x) || (t == p && x == Pending)
    ensures NewOnes(q0, p0, c0, q1 + [p], p + 1, c)
  {
    assert q0 + NewIds(p0, p) + [p] == q0 + (NewIds(p0, p) + [p]);
  }

  lemma Cleared(cids: seq<Entry>, size: nat, pathId: nat, i: nat)
    requires Issued(cids, size, pathId) && i < size && cids[i].state != Idle
    ensures var c := cids[i := Entry(Idle, NO_SEQUENCE, cids[i].cid)];
            Issued(c, size, pathId) && forall t, x :: Has(c, t, x) <==> t != cids[i].sequence && Has(cids, t, x)
  {
    var c := cids[i := Entry(Idle, NO_SEQUENCE, cids[i].cid)];
    forall t, x ensures Has(c, t, x) <==> t != cids[i].sequence && Has(cids, t, x) {
      if t != cids[i].sequence && Has(cids, t, x) {
        var k :| 0 <= k < |cids| && cids[k].sequence == t && cids[k].state == x && x != Idle;
        assert c[k] == cids[k];
      }
      if Has(c, t, x) {
        var k :| 0 <= k < |cids| && c[k].sequence == t && c[k].state == x && x != Idle;
        assert c[k] == cids[k];
      }
    }
  }

  /** The queue without its element `a`, whose place has moved back to `b`. */
  ghost predicate Hole(cids: seq<Entry>, size: nat, q: seq<nat>, a: nat, b: nat)
  {
    && a <= b < |q| <= size <= |cids| && cids[b].state != Pending
    && (forall k :: 0 <= k < a ==> cids[k].state == Pending && cids[k].sequence == q[k])
    && (forall k :: a <= k < b ==> cids[k].state == Pending && cids[k].sequence == q[k + 1])
    && (forall k :: b < k < |q| ==> cids[k].state == Pending && cids[k].sequence == q[k])
    && (forall k :: |q| <= k < size ==> cids[k].state != Pending)
  }

  /** The entry `a` has become idle and has moved to `b`. */
  ghost predicate Gap(cids: seq<Entry>, size: nat, q: seq<nat>, a: nat, b: nat)
  {
    if a < |q| then Hole(cids, size, q, a, b) else a == b && Fifo(cids, size, q)
  }

  lemma GapStart(c0: seq<Entry>, size: nat, q: seq<nat>, a: nat, c: seq<Entry>)
    requires Fifo(c0, size, q) && a < size && |c| == |c0| && c[a].state == Idle
    requires forall k :: 0 <= k < |c| && k != a ==> c[k] == c0[k]
    ensures Gap(c, size, q, a, a)
  {
  }

  lemma GapMove(cids: seq<Entry>, size: nat, q: seq<nat>, a: nat, b: nat)
    requires Gap(cids, size, q, a, b) && a <= b && b + 1 < size <= |cids| && cids[b + 1].state == Pending
    ensures a < |q| && Gap(Swapped(cids, b + 1, b), size, q, a, b + 1)
  {
  }

  lemma GapEnd(cids: seq<Entry>, size: nat, q: seq<nat>, a: nat, b: nat)
    requires Gap(cids, size, q, a, b) && b < size <= |cids| && (b + 1 == size || cids[b + 1].state != Pending)
    ensures Fifo(cids, size, if a < |q| then Remove(q, a) else q)
  {
  }

  lemma SomeLeft(c0: seq<Entry>, c: seq<Entry>, size: nat, pathId: nat, s: nat)
    requires Issued(c, size, pathId) && !forall t, x :: t != s ==> !Has(c0, t, x)
    requires forall t, x :: t != s && Has(c0, t, x) ==> Has(c, t, x)
    ensures (exists k :: 0 <= k < size && c[k].state != Idle) && exists t, x :: t != s && Has(c, t, x)
  {
    var t, x :| t != s && Has(c0, t, x);
    var k :| 0 <= k < |c| && c[k].sequence == t && c[k].state == x && x != Idle;
  }
}
