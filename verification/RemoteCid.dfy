/** The connection IDs that the peer has provided (lib/remote_cid.c; section 19.15 of RFC 9000). */
module RemoteCids {
  import opened Basics

  const ACTIVE_LIMIT: nat := 4
  const RETIRED_LIMIT: nat := 8

  datatype CidState = Unavailable | InUse | Available

  /** A slot; when unavailable, `sequence` is the one that the peer is expected to provide next. */
  datatype Slot = Slot(state: CidState, sequence: nat, cid: seq<nat>, token: seq<nat>)

  datatype CidError = NoError | LimitExceeded | ProtocolViolation | StateExhausted

  ghost predicate InSlots(cids: seq<Slot>, s: nat)
  {
    exists i :: 0 <= i < |cids| && cids[i].sequence == s
  }

  ghost predicate DistinctSequences(cids: seq<Slot>)
  {
    forall i, j :: 0 <= i < j < |cids| ==> cids[i].sequence != cids[j].sequence
  }

  ghost predicate DistinctCids(cids: seq<Slot>)
  {
    forall i, j :: 0 <= i < j < |cids| && cids[i].state != Unavailable && cids[j].state != Unavailable ==>
          cids[i].cid != cids[j].cid
  }

  /** Every sequence up to the largest is in exactly one slot, or is gone; what is queued to be reported is gone. */
  ghost predicate Accounted(cids: seq<Slot>, largest: nat, gone: set<nat>)
  {
    && |cids| == ACTIVE_LIMIT && DistinctSequences(cids)
    && (forall i :: 0 <= i < |cids| ==> cids[i].sequence <= largest && cids[i].sequence !in gone)
    && (forall s :: s in gone ==> s <= largest)
    && (forall s: nat :: s <= largest && s !in gone ==> InSlots(cids, s))
  }

  lemma RetireAccounted(cids: seq<Slot>, largest: nat, gone: set<nat>, i: nat)
    requires Accounted(cids, largest, gone) && i < |cids|
    ensures var cids' := cids[i := cids[i].(state := Unavailable, sequence := largest + 1)];
            Accounted(cids', largest + 1, gone + {cids[i].sequence})
  {
    var cids' := cids[i := cids[i].(state := Unavailable, sequence := largest + 1)];
    forall s: nat | s <= largest + 1 && s !in gone + {cids[i].sequence} ensures InSlots(cids', s) {
      if s == largest + 1 {
        assert cids'[i].sequence == s;
      } else {
        var j :| 0 <= j < |cids| && cids[j].sequence == s;
        assert cids'[j].sequence == s;
      }
    }
  }

  /** An active slot that contradicts a frame: the same ID with another sequence or token, or the same sequence with
      another ID. */
  predicate Conflicts(c: Slot, sequence: nat, cid: seq<nat>, token: seq<nat>)
  {
    && c.state != Unavailable
    && if c.cid == cid then c.sequence != sequence || c.token != token else c.sequence == sequence
  }

  predicate Repeats(c: Slot, sequence: nat, cid: seq<nat>, token: seq<nat>)
  {
    c.state != Unavailable && c.cid == cid && c.sequence == sequence && c.token == token
  }

  /** The slots once the frame was stored where its sequence was expected. */
  function Stored(cids: seq<Slot>, sequence: nat, cid: seq<nat>, token: seq<nat>, n: nat): (r: seq<Slot>)
    requires n <= |cids|
    ensures |r| == |cids|
  {
    seq(|cids|, i requires 0 <= i < |cids| =>
      if i < n && cids[i].state == Unavailable && cids[i].sequence == sequence
      then Slot(Available, sequence, cid, token)
      else cids[i])
  }

  ghost predicate AnyConflict(cids: seq<Slot>, sequence: nat, cid: seq<nat>, token: seq<nat>)
  {
    exists i :: 0 <= i < |cids| && Conflicts(cids[i], sequence, cid, token)
  }

  lemma StoredAccounted(cids: seq<Slot>, largest: nat, gone: set<nat>, sequence: nat, cid: seq<nat>, token: seq<nat>)
    requires Accounted(cids, largest, gone) && DistinctCids(cids) && !AnyConflict(cids, sequence, cid, token)
    ensures var cids' := Stored(cids, sequence, cid, token, |cids|);
            Accounted(cids', largest, gone) && DistinctCids(cids')
  {
    var cids' := Stored(cids, sequence, cid, token, |cids|);
    assert forall i :: 0 <= i < |cids| ==> cids'[i].sequence == cids[i].sequence;
    forall s: nat | s <= largest && s !in gone ensures InSlots(cids', s) {
      var i :| 0 <= i < |cids| && cids[i].sequence == s;
      assert cids'[i].sequence == s;
    }
    forall i, j | 0 <= i < j < |cids'| && cids'[i].state != Unavailable && cids'[j].state != Unavailable
      ensures cids'[i].cid != cids'[j].cid
    {
      assert !Conflicts(cids[i], sequence, cid, token) && !Conflicts(cids[j], sequence, cid, token);
    }
  }

  /** How many slots have a sequence below `prior`. */
  function CountBelow(cids: seq<Slot>, prior: nat): (n: nat)
  {
    if cids == [] then 0
    else CountBelow(cids[..|cids| - 1], prior) + if cids[|cids| - 1].sequence < prior then 1 else 0
  }

  /** How many sequences have to be retired before all slots have one that is at least `prior`: those in slots, and
      those that are yet to be expected. */
  function ToRetire(cids: seq<Slot>, largest: nat, prior: nat): (n: nat)
  {
    CountBelow(cids, prior) + if prior <= largest + 1 then 0 else prior - largest - 1
  }

  lemma {:induction false} CountUpdate(cids: seq<Slot>, i: nat, c: Slot, prior: nat)
    requires i < |cids|
    ensures CountBelow(cids[i := c], prior) + (if cids[i].sequence < prior then 1 else 0)
            == CountBelow(cids, prior) + if c.sequence < prior then 1 else 0
    decreases |cids|
  {
    var n := |cids| - 1;
    if i < n {
      CountUpdate(cids[..n], i, c, prior);
      assert cids[i := c][..n] == cids[..n][i := c];
    } else {
      assert cids[i := c][..n] == cids[..n];
    }
  }

  lemma {:induction false} CountNone(cids: seq<Slot>, prior: nat)
    ensures CountBelow(cids, prior) == 0 <==> forall i :: 0 <= i < |cids| ==> cids[i].sequence >= prior
  {
    if cids != [] {
      CountNone(cids[..|cids| - 1], prior);
      assert forall i :: 0 <= i < |cids| - 1 ==> cids[..|cids| - 1][i] == cids[i];
    }
  }

  /** Each retirement brings the slots closer by one. */
  lemma RetiresOne(cids: seq<Slot>, largest: nat, i: nat, prior: nat)
    requires i < |cids| && cids[i].sequence < prior
    ensures var c := cids[i].(state := Unavailable, sequence := largest + 1);
            ToRetire(cids[i := c], largest + 1, prior) + 1 == ToRetire(cids, largest, prior)
  {
    CountUpdate(cids, i, cids[i].(state := Unavailable, sequence := largest + 1), prior);
  }

  /** When all slots have reached `prior`, nothing is left to be retired, and everything below is gone. */
  lemma NoneToRetire(cids: seq<Slot>, largest: nat, gone: set<nat>, prior: nat)
    requires Accounted(cids, largest, gone) && forall i :: 0 <= i < |cids| ==> cids[i].sequence >= prior
    ensures ToRetire(cids, largest, prior) == 0 && forall s: nat :: s < prior ==> s in gone
  {
    CountNone(cids, prior);
    assert cids[0].sequence <= largest;
    forall s: nat | s < prior ensures s in gone {
      assert s in gone || InSlots(cids, s);
    }
  }

  /** A slot whose ID was retired waits for a sequence above all those expected before. */
  ghost predicate Replaced(c: Slot, c': Slot, gone: set<nat>, prior: nat, largest: nat)
  {
    c'.state == Unavailable && c.sequence < prior && c.sequence in gone && c'.sequence > largest
  }

  /** What a frame may do to a slot: nothing, fill it, or retire its ID, after which it may be filled too. */
  ghost predicate SlotStep(c: Slot, c': Slot, gone: set<nat>, prior: nat, largest: nat, sequence: nat, cid: seq<nat>,
                           token: seq<nat>)
  {
    || c' == c
    || (c.state == Unavailable && c.sequence == sequence && c' == Slot(Available, sequence, cid, token))
    || (c.sequence < prior && c.sequence in gone && c'.sequence > largest
        && (c'.state == Unavailable || c' == Slot(Available, sequence, cid, token)))
  }

  lemma Placed(cids: seq<Slot>, largest: nat, gone: set<nat>, sequence: nat)
    requires sequence <= largest && Accounted(cids, largest, gone)
    ensures sequence in gone || InSlots(cids, sequence)
  {
  }

  lemma RegisteredSlots(c0: seq<Slot>, c1: seq<Slot>, gone: set<nat>, prior: nat, largest: nat, sequence: nat,
                        cid: seq<nat>, token: seq<nat>)
    requires |c0| == |c1| && forall i :: 0 <= i < |c1| ==>
               c1[i] == c0[i] || Replaced(c0[i], c1[i], gone, prior, largest)
    ensures var c2 := Stored(c1, sequence, cid, token, |c1|);
            && (forall i :: 0 <= i < |c2| ==>
                SlotStep(c0[i], c2[i], gone, prior, largest, sequence, cid, token) && c2[i].sequence == c1[i].sequence)
            && (!AnyConflict(c1, sequence, cid, token) ==>
                  forall i :: 0 <= i < |c2| && c2[i].sequence == sequence ==>
                        c2[i].state != Unavailable && c2[i].cid == cid && c2[i].token == token)
  {
    var c2 := Stored(c1, sequence, cid, token, |c1|);
    if !AnyConflict(c1, sequence, cid, token) {
      forall i | 0 <= i < |c2| && c2[i].sequence == sequence
        ensures c2[i].state != Unavailable && c2[i].cid == cid && c2[i].token == token
      {
        assert !Conflicts(c1[i], sequence, cid, token);
      }
    }
  }

  class RemoteCidSet {
    var cids: seq<Slot>
    var largest: nat
    var retired: seq<nat>
    /** the sequences that were ever taken out of a slot */
    ghost var gone: set<nat>

    ghost predicate Valid()
      reads this
    {
      && Accounted(cids, largest, gone) && DistinctCids(cids)
      && |retired| <= RETIRED_LIMIT && NoRepeats(retired) && forall s :: s in retired ==> s in gone
    }

    constructor (initialCid: seq<nat>, token: seq<nat>)
      ensures |cids| == 4 && largest == 3 && Valid() && gone == {} && retired == []
              && cids[0] == Slot(InUse, 0, initialCid, token)
      ensures forall i :: 0 < i < |cids| ==> cids[i].state == Unavailable
    {
      cids := [Slot(InUse, 0, initialCid, token), Slot(Unavailable, 1, [], []), Slot(Unavailable, 2, [], []),
               Slot(Unavailable, 3, [], [])];
      largest, retired, gone := 3, [], {};
      new;
      forall s: nat | s <= 3 ensures InSlots(cids, s) {
        assert cids[s].sequence == s;
      }
    }

    /** Queues a sequence for a RETIRE_CONNECTION_ID frame, unless it is queued already. */
    method PushRetired(sequence: nat) returns (ok: bool)
      requires Valid() && sequence in gone
      modifies this`retired
      ensures Valid() && sequence in gone
      ensures ok <==> sequence in old(retired) || |old(retired)| < RETIRED_LIMIT
      ensures retired == if ok && sequence !in old(retired) then old(retired) + [sequence] else old(retired)
    {
      var i := 0;
      while i < |retired|
        invariant i <= |retired| && sequence !in retired[..i]
      {
        if retired[i] == sequence {
          return true;
        }
        i := i + 1;
      }
      assert retired[..i] == retired;
      if |retired| >= RETIRED_LIMIT {
        return false;
      }
      retired := retired + [sequence];
      return true;
    }

    /** Removes the first `count` sequences from the queue. */
    method ShiftRetired(count: nat)
      requires Valid() && count <= |retired|
      modifies this`retired
      ensures Valid() && retired == old(retired)[count..]
    {
      retired := retired[count..];
    }

    /** Takes the ID out of a slot, which then waits for a sequence never used before. */
    method DoUnregister(i: nat) returns (ok: bool)
      requires Valid() && i < |cids|
      modifies this
      ensures Valid() && cids == old(cids)[i := old(cids)[i].(state := Unavailable, sequence := old(largest) + 1)]
      ensures largest == old(largest) + 1 && gone == old(gone) + {old(cids)[i].sequence}
              && old(cids)[i].sequence !in old(gone)
      ensures ok <==> |old(retired)| < RETIRED_LIMIT
      ensures retired == if ok then old(retired) + [old(cids)[i].sequence] else old(retired)
    {
      RetireAccounted(cids, largest, gone, i);
      var sequence := cids[i].sequence;
      largest := largest + 1;
      cids := cids[i := cids[i].(state := Unavailable, sequence := largest)];
      gone := gone + {sequence};
      ok := PushRetired(sequence);
    }

    /** Retires the ID with the given sequence, which must be in a slot. */
    method Unregister(sequence: nat) returns (ok: bool)
      requires Valid() && InSlots(cids, sequence)
      modifies this
      ensures Valid() && gone == old(gone) + {sequence} && !InSlots(cids, sequence) && largest == old(largest) + 1
              && |cids| == |old(cids)|
      ensures ok ==> sequence in retired
      ensures ok <==> |old(retired)| < RETIRED_LIMIT
      ensures forall k :: 0 <= k < |cids| ==>
                cids[k] == old(cids)[k] || (old(cids)[k].sequence == sequence && cids[k].state == Unavailable
                                            && cids[k].sequence == largest)
    {
      var i := 0;
      while cids[i].sequence != sequence
        invariant i < |cids| && forall k :: 0 <= k < i ==> cids[k].sequence != sequence
        decreases |cids| - i
      {
        i := i + 1;
      }
      ok := DoUnregister(i);
    }

    /** Retires every ID below `prior`. A slot may go through several sequences before it reaches one that stays. */
    method UnregisterPriorTo(prior: nat) returns (ok: bool)
      requires Valid()
      modifies this
      ensures Valid() && old(gone) <= gone && old(largest) <= largest && |old(retired)| <= |retired|
      ensures retired[..|old(retired)|] == old(retired)
      ensures forall s :: s in gone && s !in old(gone) && ok ==> s < prior && s in retired[|old(retired)|..]
      ensures ok ==> forall i :: 0 <= i < |cids| ==> cids[i].sequence >= prior
      ensures ok <==> |old(retired)| + old(ToRetire(cids, largest, prior)) <= 8
      ensures ok ==> largest == old(largest + ToRetire(cids, largest, prior))
      ensures ok ==> forall s: nat :: s < prior ==> s in gone
      ensures ok ==> |retired| == old(|retired| + ToRetire(cids, largest, prior))
      ensures |cids| == |old(cids)| && forall i :: 0 <= i < |cids| ==>
                cids[i] == old(cids)[i] || Replaced(old(cids)[i], cids[i], gone, prior, old(largest))
    {
      hide Accounted, DistinctCids, NoRepeats, Retiring, ToRetire;
      ghost var c0, r0, g0, l0 := cids, retired, gone, largest;
      KnownSize();
      RetiringNone(c0, r0, g0, prior, l0);
      var i := 0;
      while i < |cids|
        invariant |cids| == ACTIVE_LIMIT && i <= |cids| && Valid() && old(largest) <= largest
        invariant |retired| + ToRetire(cids, largest, prior) == |r0| + ToRetire(c0, l0, prior)
        invariant largest - l0 == |retired| - |r0|
        invariant Retiring(c0, r0, g0, cids, retired, gone, prior, i, false, l0)
      {
        while cids[i].sequence < prior
          invariant |cids| == ACTIVE_LIMIT && i < |cids| && Valid() && old(largest) <= largest
          invariant |retired| + ToRetire(cids, largest, prior) == |r0| + ToRetire(c0, l0, prior)
          invariant largest - l0 == |retired| - |r0|
          invariant Retiring(c0, r0, g0, cids, retired, gone, prior, i, false, l0)
          decreases if cids[i].sequence < prior then 1 else 0, prior - largest
        {
          RetiringOne(c0, r0, g0, cids, retired, gone, prior, i, largest + 1, l0);
          RetiresOne(cids, largest, i, prior);
          ok := DoUnregister(i);
          if !ok {
            RetiringDone(c0, r0, g0, cids, retired, gone, prior, i, true, l0);
            return;
          }
        }
        RetiringNext(c0, r0, g0, cids, retired, gone, prior, i, l0);
        i := i + 1;
      }
      RetiringDone(c0, r0, g0, cids, retired, gone, prior, i, false, l0);
      NoneToRetire(cids, largest, gone, prior);
      QueueFits();
      ok := true;
    }

    /** The first `i` slots have reached `prior`; the slots after `i` are as they were; what is gone since was
        queued. */
    static ghost predicate Retiring(c0: seq<Slot>, r0: seq<nat>, g0: set<nat>, c: seq<Slot>, r: seq<nat>, g: set<nat>,
                                    prior: nat, i: nat, full: bool, l0: nat)
    {
      && |c| == |c0| && i <= |c| && g0 <= g && |r0| <= |r| && r[..|r0|] == r0
      && (forall s :: s in g && s !in g0 ==> s < prior && (s in r[|r0|..] || full))
      && (forall k :: 0 <= k < i ==> c[k].sequence >= prior)
      && (forall k :: i < k < |c| ==> c[k] == c0[k])
      && (forall k :: 0 <= k < |c| ==> c[k] == c0[k] || Replaced(c0[k], c[k], g, prior, l0))
    }

    static lemma RetiringNone(c0: seq<Slot>, r0: seq<nat>, g0: set<nat>, prior: nat, l0: nat)
      ensures Retiring(c0, r0, g0, c0, r0, g0, prior, 0, false, l0)
    {
    }

    static lemma RetiringOne(c0: seq<Slot>, r0: seq<nat>, g0: set<nat>, c: seq<Slot>, r: seq<nat>, g: set<nat>,
                             prior: nat, i: nat, next: nat, l0: nat)
      requires Retiring(c0, r0, g0, c, r, g, prior, i, false, l0) && i < |c| && c[i].sequence < prior && next > l0
      ensures var c' := c[i := c[i].(state := Unavailable, sequence := next)]; var g' := g + {c[i].sequence};
              Retiring(c0, r0, g0, c', r + [c[i].sequence], g', prior, i, false, l0)
                  && Retiring(c0, r0, g0, c', r, g', prior, i, true, l0)
    {
      var r' := r + [c[i].sequence];
      assert r'[..|r0|] == r[..|r0|] && r'[|r0|..] == r[|r0|..] + [c[i].sequence];
    }

    static lemma RetiringNext(c0: seq<Slot>, r0: seq<nat>, g0: set<nat>, c: seq<Slot>, r: seq<nat>, g: set<nat>,
                              prior: nat, i: nat, l0: nat)
      requires Retiring(c0, r0, g0, c, r, g, prior, i, false, l0) && i < |c| && c[i].sequence >= prior
      ensures Retiring(c0, r0, g0, c, r, g, prior, i + 1, false, l0)
    {
    }

    static lemma RetiringDone(c0: seq<Slot>, r0: seq<nat>, g0: set<nat>, c: seq<Slot>, r: seq<nat>, g: set<nat>,
                              prior: nat, i: nat, full: bool, l0: nat)
      requires Retiring(c0, r0, g0, c, r, g, prior, i, full, l0)
      ensures |c| == |c0| && g0 <= g && |r0| <= |r| && r[..|r0|] == r0
      ensures forall s :: s in g && s !in g0 ==> s < prior && (s in r[|r0|..] || full)
      ensures i == |c| ==> forall k :: 0 <= k < |c| ==> c[k].sequence >= prior
      ensures forall k :: 0 <= k < |c| ==> c[k] == c0[k] || Replaced(c0[k], c[k], g, prior, l0)
    {
    }

    /** Stores an ID where its sequence is expected. One that was retired already is ignored, as is a repetition; a
        frame that contradicts an active ID is a violation. */
    method DoRegister(sequence: nat, cid: seq<nat>, token: seq<nat>) returns (error: CidError)
      requires Valid()
      modifies this`cids
      ensures error == LimitExceeded <==> largest < sequence
      ensures error == ProtocolViolation <==> largest >= sequence && AnyConflict(old(cids), sequence, cid, token)
      ensures error != StateExhausted
      ensures error == NoError ==> Valid() && cids == Stored(old(cids), sequence, cid, token, |old(cids)|)
    {
      hide DistinctSequences, Accounted, NoRepeats;
      error := NoError;
      if largest < sequence {
        return LimitExceeded;
      }
      ghost var cids0 := cids;
      KnownSize();
      var i := 0;
      NoneStored(cids0, sequence, cid, token);
      while i < |cids|
        invariant i <= |cids| == |cids0| == ACTIVE_LIMIT && cids == Stored(cids0, sequence, cid, token, i)
        invariant forall k :: 0 <= k < i ==>
                    !Conflicts(cids0[k], sequence, cid, token) && !Repeats(cids0[k], sequence, cid, token)
      {
        if cids[i].state != Unavailable {
          if cids[i].cid == cid {
            if cids[i].sequence == sequence && cids[i].token == token {
              RepeatIsAll(cids0, largest, gone, sequence, cid, token, i);
              return;
            } else {
              return ProtocolViolation;
            }
          }
          if cids[i].sequence == sequence {
            return ProtocolViolation;
          }
        } else if cids[i].sequence == sequence {
          cids := cids[i := Slot(Available, sequence, cid, token)];
        }
        i := i + 1;
        assert cids == Stored(cids0, sequence, cid, token, i);
      }
      StoredAccounted(cids0, largest, gone, sequence, cid, token);
    }

    lemma QueueFits()
      requires Valid()
      ensures |retired| <= 8
    {
    }

    lemma KnownSize()
      requires Valid()
      ensures |cids| == ACTIVE_LIMIT
    {
    }

    static lemma NoneStored(cids: seq<Slot>, sequence: nat, cid: seq<nat>, token: seq<nat>)
      ensures Stored(cids, sequence, cid, token, 0) == cids
    {
    }

    /** A repetition contradicts nothing and is stored nowhere. */
    static lemma RepeatIsAll(cids: seq<Slot>, largest: nat, gone: set<nat>, sequence: nat, cid: seq<nat>,
                             token: seq<nat>, i: nat)
      requires Accounted(cids, largest, gone) && DistinctCids(cids) && i < |cids|
               && Repeats(cids[i], sequence, cid, token)
      ensures !AnyConflict(cids, sequence, cid, token)
      ensures forall n: nat :: n <= |cids| ==> Stored(cids, sequence, cid, token, n) == cids
    {
      forall j | 0 <= j < |cids|
        ensures !Conflicts(cids[j], sequence, cid, token) && (j != i ==> cids[j].sequence != sequence)
      {
      }
    }

    /** Processes a NEW_CONNECTION_ID frame: first retires, then registers. If either fails, nothing has changed. */
    method Register(sequence: nat, cid: seq<nat>, token: seq<nat>, retirePriorTo: nat) returns (error: CidError)
      requires Valid() && retirePriorTo <= sequence
      modifies this
      ensures Valid()
      ensures error != NoError ==>
                cids == old(cids) && largest == old(largest) && retired == old(retired) && gone == old(gone)
      ensures var need := old(ToRetire(cids, largest, retirePriorTo));
              && (error == StateExhausted <==> |old(retired)| + need > 8)
              && (error == LimitExceeded <==> |old(retired)| + need <= 8 && sequence > old(largest) + need)
              && (error == ProtocolViolation <==>
                    && |old(retired)| + need <= 8 && sequence <= old(largest) + need
                    && exists i :: 0 <= i < |old(cids)| && old(cids)[i].sequence >= retirePriorTo
                                   && Conflicts(old(cids)[i], sequence, cid, token))
      ensures error == NoError ==>
                && old(gone) <= gone && sequence <= largest && (sequence in gone || InSlots(cids, sequence))
                && |old(retired)| <= |retired| && retired[..|old(retired)|] == old(retired)
                && (forall s :: s in gone && s !in old(gone) ==> s < retirePriorTo && s in retired[|old(retired)|..])
                && (forall i :: 0 <= i < |cids| ==> cids[i].sequence >= retirePriorTo)
                && |cids| == |old(cids)|
                && (forall i :: 0 <= i < |cids| ==>
                      SlotStep(old(cids)[i], cids[i], gone, retirePriorTo, old(largest), sequence, cid, token))
                && (forall i :: 0 <= i < |cids| && cids[i].sequence == sequence ==>
                    cids[i].state != Unavailable && cids[i].cid == cid && cids[i].token == token)
      ensures error == NoError ==>
                var need := old(ToRetire(cids, largest, retirePriorTo));
                && largest == old(largest) + need && |retired| == |old(retired)| + need
                && forall s: nat :: s < retirePriorTo ==> s in gone
    {
      hide DistinctSequences, DistinctCids, NoRepeats, Accounted, InSlots, Stored, SlotStep, Replaced, AnyConflict,
           ToRetire, Conflicts;
      var backupCids, backupLargest, backupRetired := cids, largest, retired;
      ghost var backupGone := gone;
      var ok := UnregisterPriorTo(retirePriorTo);
      error := StateExhausted;
      if ok {
        ghost var c1 := cids;
        KeptConflicts(backupCids, c1, gone, retirePriorTo, backupLargest, sequence, cid, token);
        error := DoRegister(sequence, cid, token);
        RegisteredSlots(old(cids), c1, gone, retirePriorTo, old(largest), sequence, cid, token);
        if error == NoError {
          Placed(cids, largest, gone, sequence);
        }
      }
      if error != NoError {
        cids, largest, retired, gone := backupCids, backupLargest, backupRetired, backupGone;
      }
    }
  }

  /** What contradicts a frame once IDs were retired are the active slots that stay. */
  lemma KeptConflicts(c0: seq<Slot>, c1: seq<Slot>, gone: set<nat>, prior: nat, largest: nat, sequence: nat,
                      cid: seq<nat>, token: seq<nat>)
    requires |c0| == |c1| && forall i :: 0 <= i < |c1| ==> c1[i].sequence >= prior
    requires forall i :: 0 <= i < |c1| ==> c1[i] == c0[i] || Replaced(c0[i], c1[i], gone, prior, largest)
    ensures AnyConflict(c1, sequence, cid, token) <==>
            exists i :: 0 <= i < |c0| && c0[i].sequence >= prior && Conflicts(c0[i], sequence, cid, token)
  {
    forall i | 0 <= i < |c1|
      ensures Conflicts(c1[i], sequence, cid, token) <==>
              c0[i].sequence >= prior && Conflicts(c0[i], sequence, cid, token)
    {
      assert c1[i] == c0[i] || Replaced(c0[i], c1[i], gone, prior, largest);
    }
  }
}
