/** Which connection ID of the peer each path uses (setup_path_dcid, get_dcid, dissociate_cid, do_delete_path and
    handle_new_connection_id_frame of lib/quicly.c). */
module PathDcids {
  import opened Basics
  import opened RemoteCids

  /** A path, and the sequence of the connection ID it uses, if one is assigned. */
  datatype Path = NoPath | Path(dcid: Option<nat>)

  predicate Uses(p: Path, d: nat)
  {
    p.Path? && p.dcid == Some(d)
  }

  ghost predicate Resolves(cids: seq<Slot>, d: nat)
  {
    exists k :: 0 <= k < |cids| && cids[k].sequence == d && cids[k].state == InUse
  }

  /** Paths share an ID only if it is empty. */
  ghost predicate Shareable(cids: seq<Slot>, d: nat)
  {
    forall k :: 0 <= k < |cids| && cids[k].sequence == d ==> cids[k].cid == []
  }

  ghost predicate PathsOk(paths: seq<Path>, cids: seq<Slot>)
  {
    && (forall i, d :: 0 <= i < |paths| && Uses(paths[i], d) ==> Resolves(cids, d))
    && (forall i, j, d :: 0 <= i < j < |paths| && Uses(paths[i], d) && Uses(paths[j], d) ==> Shareable(cids, d))
  }

  /** The paths once no path uses `d` any more. */
  function Freed(paths: seq<Path>, d: nat, n: nat): (r: seq<Path>)
    requires n <= |paths|
    ensures |r| == |paths|
  {
    seq(|paths|, i requires 0 <= i < |paths| => if i < n && Uses(paths[i], d) then Path(None) else paths[i])
  }

  ghost predicate Unused(paths: seq<Path>, d: nat)
  {
    forall i :: 0 <= i < |paths| ==> !Uses(paths[i], d)
  }

  /** Each path uses what it used before, or nothing. */
  ghost predicate FewerUses(paths: seq<Path>, paths': seq<Path>)
  {
    |paths'| == |paths| && forall i :: 0 <= i < |paths| ==>
          paths'[i] == paths[i] || !paths'[i].Path? || paths'[i].dcid == None
  }

  lemma FreedUses(paths: seq<Path>, d: nat)
    ensures FewerUses(paths, Freed(paths, d, |paths|)) && Unused(Freed(paths, d, |paths|), d)
  {
  }

  /** What was freed stays free. */
  lemma StillUnused(paths: seq<Path>, paths': seq<Path>, d: nat)
    requires FewerUses(paths, paths') && Unused(paths, d)
    ensures Unused(paths', d)
  {
  }

  lemma UnusedAbove(paths: seq<Path>, cids: seq<Slot>, largest: nat, gone: set<nat>, d: nat)
    requires PathsOk(paths, cids) && Accounted(cids, largest, gone) && d > largest
    ensures Unused(paths, d)
  {
    assert !Resolves(cids, d);
  }

  /** Slots may change as long as no path uses what they had or have. */
  lemma PathsStay(paths: seq<Path>, cids: seq<Slot>, paths': seq<Path>, cids': seq<Slot>)
    requires PathsOk(paths, cids) && FewerUses(paths, paths') && |cids'| == |cids|
    requires forall k :: 0 <= k < |cids| ==>
               cids'[k] == cids[k] || (Unused(paths', cids[k].sequence) && Unused(paths', cids'[k].sequence))
    ensures PathsOk(paths', cids')
  {
    forall i, d | 0 <= i < |paths'| && Uses(paths'[i], d) ensures Resolves(cids', d) {
      assert Uses(paths[i], d) && Resolves(cids, d) && !Unused(paths', d);
      var k :| 0 <= k < |cids| && cids[k].sequence == d && cids[k].state == InUse;
      assert cids'[k] == cids[k];
    }
    forall i, j, d | 0 <= i < j < |paths'| && Uses(paths'[i], d) && Uses(paths'[j], d) ensures Shareable(cids', d) {
      assert Uses(paths[i], d) && Uses(paths[j], d) && Shareable(cids, d) && !Unused(paths', d);
    }
  }

  /** Only the first slot may ever have an empty ID, the one that the connection started with. */
  ghost predicate OnlyFirstEmpty(cids: seq<Slot>)
  {
    forall k :: 0 < k < |cids| && cids[k].state != Unavailable ==> cids[k].cid != []
  }

  /** Taking an available ID, or the empty one. */
  lemma Taken(cids: seq<Slot>, largest: nat, gone: set<nat>, k: nat)
    requires Accounted(cids, largest, gone) && DistinctCids(cids) && OnlyFirstEmpty(cids) && k < |cids|
    requires cids[k].state == Available || (k == 0 && cids[0].cid == [])
    ensures var cids' := cids[k := cids[k].(state := InUse)];
            Accounted(cids', largest, gone) && DistinctCids(cids') && OnlyFirstEmpty(cids')
  {
    var cids' := cids[k := cids[k].(state := InUse)];
    forall s: nat | s <= largest && s !in gone ensures InSlots(cids', s) {
      var i :| 0 <= i < |cids| && cids[i].sequence == s;
      assert cids'[i].sequence == s;
    }
  }

  lemma AvailableUnused(cids: seq<Slot>, k: nat)
    requires DistinctSequences(cids) && k < |cids|
    ensures cids[k].state == Available ==> !Resolves(cids, cids[k].sequence)
  {
  }

  lemma Assigned(paths: seq<Path>, cids: seq<Slot>, i: nat, k: nat)
    requires PathsOk(paths, cids) && DistinctSequences(cids) && i < |paths| && paths[i] == Path(None) && k < |cids|
    requires cids[k].state == Available || cids[k].cid == []
    ensures PathsOk(paths[i := Path(Some(cids[k].sequence))], cids[k := cids[k].(state := InUse)])
    ensures cids[k].state == Available ==> forall j :: 0 <= j < |paths| ==> !Uses(paths[j], cids[k].sequence)
  {
    var cids', paths' := cids[k := cids[k].(state := InUse)], paths[i := Path(Some(cids[k].sequence))];
    AvailableUnused(cids, k);
    forall j, d | 0 <= j < |paths'| && Uses(paths'[j], d) ensures Resolves(cids', d) {
      if j == i {
        assert cids'[k].sequence == d;
      } else {
        assert Uses(paths[j], d) && Resolves(cids, d);
        var n :| 0 <= n < |cids| && cids[n].sequence == d && cids[n].state == InUse;
        assert cids'[n].sequence == d && cids'[n].state == InUse;
      }
    }
    forall j, l, d | 0 <= j < l < |paths'| && Uses(paths'[j], d) && Uses(paths'[l], d) ensures Shareable(cids', d) {
      if j != i && l != i {
        assert Shareable(cids, d);
      }
    }
  }

  class Connection {
    const remote: RemoteCidSet
    var paths: seq<Path>

    ghost predicate Valid()
      reads this, remote
    {
      remote.Valid() && PathsOk(paths, remote.cids) && OnlyFirstEmpty(remote.cids)
    }

    /** A connection starts with one path, which uses the first connection ID. */
    constructor (initialCid: seq<nat>, token: seq<nat>)
      ensures Valid() && paths == [Path(Some(0)), NoPath, NoPath, NoPath]
    {
      remote := new RemoteCidSet(initialCid, token);
      paths := [Path(Some(0)), NoPath, NoPath, NoPath];
      new;
      assert remote.cids[0].sequence == 0;
    }

    method OpenPath(i: nat)
      requires Valid() && i < |paths| && paths[i] == NoPath
      modifies this`paths
      ensures Valid() && paths == old(paths)[i := Path(None)]
    {
      PathsStay(paths, remote.cids, paths[i := Path(None)], remote.cids);
      paths := paths[i := Path(None)];
    }

    /** Assigns the available ID with the least sequence, or the empty ID. */
    method SetupPathDcid(i: nat) returns (ok: bool)
      requires Valid() && i < |paths| && paths[i] == Path(None)
      modifies this`paths, remote
      ensures Valid() && remote.gone == old(remote.gone) && remote.largest == old(remote.largest)
      ensures |paths| == |old(paths)|
      ensures ok ==> && paths[i].Path? && paths[i].dcid.Some? && Resolves(remote.cids, paths[i].dcid.value)
                     && paths == old(paths)[i := paths[i]]
      ensures ok && old(remote.cids)[0].cid != [] ==>
                && (forall j :: 0 <= j < |paths| && j != i ==> !Uses(paths[j], paths[i].dcid.value))
                && (forall k :: 0 <= k < |remote.cids| && old(remote.cids)[k].state == Available ==>
                      paths[i].dcid.value <= old(remote.cids)[k].sequence)
      ensures !ok ==> paths == old(paths) && remote.cids == old(remote.cids)
      ensures !ok <==> old(remote.cids)[0].cid != [] && forall k :: 0 <= k < |old(remote.cids)| ==>
                old(remote.cids)[k].state != Available
    {
      hide Accounted, DistinctCids, NoRepeats, PathsOk;
      SetFacts();
      var found := FindUnused();
      if found < 0 {
        return false;
      }
      Assigned(paths, remote.cids, i, found);
      Taken(remote.cids, remote.largest, remote.gone, found);
      var d := remote.cids[found].sequence;
      remote.cids := remote.cids[found := remote.cids[found].(state := InUse)];
      paths := paths[i := Path(Some(d))];
      assert remote.cids[found].sequence == d;
      return true;
    }

    /** The slot to use next, -1 if there is none. */
    method FindUnused() returns (found: int)
      requires Valid()
      ensures -1 <= found < |remote.cids|
      ensures remote.cids[0].cid == [] ==> found == 0
      ensures remote.cids[0].cid != [] ==>
                && (found == -1 <==> forall k :: 0 <= k < |remote.cids| ==> remote.cids[k].state != Available)
                && (found >= 0 ==> remote.cids[found].state == Available
                                   && forall k :: 0 <= k < |remote.cids| && remote.cids[k].state == Available ==>
                                        remote.cids[found].sequence <= remote.cids[k].sequence)
    {
      hide Accounted, DistinctCids, NoRepeats, PathsOk;
      SetFacts();
      if |remote.cids[0].cid| == 0 {
        return 0;
      }
      found := -1;
      var k := 0;
      while k < |remote.cids|
        invariant k <= |remote.cids| && -1 <= found < k
        invariant found == -1 ==> forall n :: 0 <= n < k ==> remote.cids[n].state != Available
        invariant found >= 0 ==> remote.cids[found].state == Available
                                 && forall n :: 0 <= n < k && remote.cids[n].state == Available ==>
                                      remote.cids[found].sequence <= remote.cids[n].sequence
      {
        if remote.cids[k].state == Available && (found == -1 || remote.cids[k].sequence < remote.cids[found].sequence) {
          found := k;
        }
        k := k + 1;
      }
    }

    lemma SetFacts()
      requires Valid()
      ensures |remote.cids| == ACTIVE_LIMIT && DistinctSequences(remote.cids)
    {
    }

    /** The ID that a path uses is always found. */
    method GetDcid(i: nat) returns (cid: seq<nat>, ghost k: nat)
      requires Valid() && i < |paths| && paths[i].Path? && paths[i].dcid.Some?
      ensures k < |remote.cids| && remote.cids[k].sequence == paths[i].dcid.value && remote.cids[k].state == InUse
              && cid == remote.cids[k].cid
    {
      var n := 0;
      ghost var d := paths[i].dcid.value;
      assert Uses(paths[i], d) && Resolves(remote.cids, d);
      ghost var w :| 0 <= w < |remote.cids| && remote.cids[w].sequence == d && remote.cids[w].state == InUse;
      while remote.cids[n].sequence != paths[i].dcid.value
        invariant n <= w
        decreases w - n
      {
        n := n + 1;
      }
      cid, k := remote.cids[n].cid, n;
    }

    /** No path uses `sequence` any more. */
    method DissociateCid(sequence: nat)
      modifies this`paths
      ensures paths == Freed(old(paths), sequence, |old(paths)|)
    {
      ghost var before := paths;
      var i := 0;
      while i < |paths|
        invariant |paths| == |before| && i <= |paths| && paths == Freed(before, sequence, i)
      {
        if paths[i].Path? && paths[i].dcid == Some(sequence) {
          paths := paths[i := Path(None)];
        }
        i := i + 1;
        assert paths == Freed(before, sequence, i);
      }
    }

    /** Retires the ID of a path that is given up, unless it is empty. */
    method DeletePath(i: nat) returns (ok: bool)
      requires Valid() && i < |paths| && paths[i].Path?
      modifies this`paths, remote
      ensures |paths| == |old(paths)| && Valid() && paths[i] == NoPath && FewerUses(old(paths), paths)
      ensures old(paths[i].dcid.Some? && remote.cids[0].cid != []) ==>
                && (ok <==> |old(remote.retired)| < 8)
                && remote.gone == old(remote.gone) + {old(paths[i].dcid.value)}
                && (ok ==> old(paths[i].dcid.value) in remote.retired)
                && forall j :: 0 <= j < |paths| && j != i ==>
                     paths[j] == if Uses(old(paths[j]), old(paths[i].dcid.value)) then Path(None) else old(paths[j])
      ensures old(paths[i].dcid.None? || remote.cids[0].cid == []) ==>
                && ok && paths == old(paths)[i := NoPath] && remote.cids == old(remote.cids)
                && remote.retired == old(remote.retired) && remote.gone == old(remote.gone)
    {
      hide Accounted, DistinctCids, NoRepeats, PathsOk, Unused, InSlots;
      SetFacts();
      ok := true;
      ghost var paths0, cids0 := paths, remote.cids;
      ghost var used := paths[i].dcid.Some? && |remote.cids[0].cid| != 0;
      if paths[i].dcid.Some? && |remote.cids[0].cid| != 0 {
        var d := paths[i].dcid.value;
        UsedInSlot(paths, remote.cids, i, d);
        UnusedAbove(paths, remote.cids, remote.largest, remote.gone, remote.largest + 1);
        DissociateCid(d);
        FreedUses(paths0, d);
        StillUnused(paths0, paths, remote.largest + 1);
        ok := remote.Unregister(d);
        ghost var paths1 := paths;
        paths := paths[i := NoPath];
        StillUnused(paths1, paths, d);
        StillUnused(paths1, paths, remote.largest);
      } else {
        paths := paths[i := NoPath];
      }
      PathsStay(paths0, cids0, paths, remote.cids);
    }

    static lemma UsedInSlot(paths: seq<Path>, cids: seq<Slot>, i: nat, d: nat)
      requires PathsOk(paths, cids) && i < |paths| && Uses(paths[i], d)
      ensures InSlots(cids, d)
    {
      assert Resolves(cids, d);
    }

    /** Processes a NEW_CONNECTION_ID frame; an ID that a frame carries is never empty. Paths whose ID it retires are
        left without one. */
    method OnNewConnectionId(sequence: nat, cid: seq<nat>, token: seq<nat>, retirePriorTo: nat)
      returns (error: CidError)
      requires Valid() && retirePriorTo <= sequence && cid != []
      modifies this`paths, remote
      ensures Valid() && FewerUses(old(paths), paths)
      ensures error != NoError ==> && paths == old(paths) && remote.cids == old(remote.cids)
                                   && remote.retired == old(remote.retired)
                                   && remote.largest == old(remote.largest) && remote.gone == old(remote.gone)
      ensures error == NoError ==> forall s :: s in remote.gone ==> Unused(paths, s) || s in old(remote.gone)
      ensures var need := old(ToRetire(remote.cids, remote.largest, retirePriorTo));
              && (error == StateExhausted <==> |old(remote.retired)| + need > 8)
              && (error == LimitExceeded <==>
                    |old(remote.retired)| + need <= 8 && sequence > old(remote.largest) + need)
              && (error == ProtocolViolation <==>
                    && |old(remote.retired)| + need <= 8 && sequence <= old(remote.largest) + need
                    && exists i :: 0 <= i < |old(remote.cids)| && old(remote.cids)[i].sequence >= retirePriorTo
                                   && Conflicts(old(remote.cids)[i], sequence, cid, token))
      ensures error == NoError ==>
                && |paths| == |old(paths)|
                && (forall i :: 0 <= i < |paths| ==>
                      paths[i] == if old(paths[i]).Path? && old(paths[i]).dcid.Some?
                                     && old(paths[i]).dcid.value < retirePriorTo
                                  then Path(None) else old(paths[i]))
                && (forall i :: 0 <= i < |remote.cids| && remote.cids[i].sequence == sequence ==>
                      remote.cids[i].state != Unavailable && remote.cids[i].cid == cid && remote.cids[i].token == token)
    {
      hide DistinctCids, NoRepeats, PathsOk, Unused, InSlots, Accounted, Dropped, ToRetire, Conflicts;
      SetFacts();
      var count := |remote.retired|;
      ghost var paths0, cids0, gone0, largest0 := paths, remote.cids, remote.gone, remote.largest;
      UnusedAboveAll(paths, remote.cids, remote.largest, remote.gone);
      error := remote.Register(sequence, cid, token, retirePriorTo);
      if error != NoError {
        return;
      }
      var i := count;
      NoneDropped(paths0);
      assert remote.retired[count..i] == [];
      while i < |remote.retired|
        invariant count <= i <= |remote.retired| && FewerUses(paths0, paths)
        invariant Dropped(paths0, paths, remote.retired[count..i])
        invariant forall k :: count <= k < i ==> Unused(paths, remote.retired[k])
        modifies this`paths
      {
        ghost var before := paths;
        DissociateCid(remote.retired[i]);
        FreedUses(before, remote.retired[i]);
        forall k | count <= k < i ensures Unused(paths, remote.retired[k]) {
          StillUnused(before, paths, remote.retired[k]);
        }
        FewerTwice(paths0, before, paths);
        OneDropped(paths0, before, remote.retired[count..i], remote.retired[i]);
        assert remote.retired[count..i] + [remote.retired[i]] == remote.retired[count..i + 1];
        i := i + 1;
      }
      assert remote.retired[count..i] == remote.retired[count..];
      DroppedBelow(paths0, paths, cids0, remote.cids, largest0, remote.largest, gone0, remote.gone,
                   remote.retired[count..], retirePriorTo, sequence, cid, token);
      forall k | 0 <= k < |cids0|
        ensures remote.cids[k] == cids0[k] || (Unused(paths, cids0[k].sequence)
                                               && Unused(paths, remote.cids[k].sequence))
      {
        assert SlotStep(cids0[k], remote.cids[k], remote.gone, retirePriorTo, largest0, sequence, cid, token);
        StillUnusedAll(paths0, paths, largest0);
        UnavailableUnused(paths0, cids0, k);
        if cids0[k].state == Unavailable {
          StillUnused(paths0, paths, cids0[k].sequence);
        }
        NotGone(cids0, largest0, gone0, k);
      }
      PathsStay(paths0, cids0, paths, remote.cids);
    }

    /** The paths that used one of the IDs `rs` were left without, and no others. */
    static ghost predicate Dropped(paths0: seq<Path>, paths: seq<Path>, rs: seq<nat>)
    {
      && |paths| == |paths0|
      && forall i :: 0 <= i < |paths| ==>
           paths[i] == if paths0[i].Path? && paths0[i].dcid.Some? && paths0[i].dcid.value in rs
                       then Path(None) else paths0[i]
    }

    static lemma NoneDropped(paths: seq<Path>)
      ensures Dropped(paths, paths, [])
    {
    }

    static lemma OneDropped(paths0: seq<Path>, paths: seq<Path>, rs: seq<nat>, r: nat)
      requires Dropped(paths0, paths, rs)
      ensures Dropped(paths0, Freed(paths, r, |paths|), rs + [r])
    {
    }

    /** What was retired, of what the paths used, are the IDs below the limit. */
    static lemma DroppedBelow(paths0: seq<Path>, paths: seq<Path>, c0: seq<Slot>, c: seq<Slot>, l0: nat, l: nat,
                              g0: set<nat>, g: set<nat>, rs: seq<nat>, prior: nat, sequence: nat, cid: seq<nat>,
                              token: seq<nat>)
      requires Dropped(paths0, paths, rs) && PathsOk(paths0, c0) && Accounted(c0, l0, g0) && Accounted(c, l, g)
      requires |c| == |c0| && forall i :: 0 <= i < |c| ==> SlotStep(c0[i], c[i], g, prior, l0, sequence, cid, token)
      requires (forall s :: s in rs ==> s in g) && (forall s :: s in g && s !in g0 ==> s in rs)
      requires forall s: nat :: s < prior ==> s in g
      ensures forall i :: 0 <= i < |paths| ==>
                paths[i] == if paths0[i].Path? && paths0[i].dcid.Some? && paths0[i].dcid.value < prior
                            then Path(None) else paths0[i]
    {
      forall i | 0 <= i < |paths| && paths0[i].Path? && paths0[i].dcid.Some?
        ensures paths0[i].dcid.value in rs <==> paths0[i].dcid.value < prior
      {
        var d := paths0[i].dcid.value;
        assert Uses(paths0[i], d) && Resolves(c0, d);
        var k :| 0 <= k < |c0| && c0[k].sequence == d && c0[k].state == InUse;
        assert SlotStep(c0[k], c[k], g, prior, l0, sequence, cid, token);
      }
    }

    static lemma NotGone(cids: seq<Slot>, largest: nat, gone: set<nat>, k: nat)
      requires Accounted(cids, largest, gone) && k < |cids|
      ensures cids[k].sequence !in gone
    {
    }

    static lemma UnavailableUnused(paths: seq<Path>, cids: seq<Slot>, k: nat)
      requires PathsOk(paths, cids) && DistinctSequences(cids) && k < |cids|
      ensures cids[k].state == Unavailable ==> Unused(paths, cids[k].sequence)
    {
      assert cids[k].state == Unavailable ==> !Resolves(cids, cids[k].sequence);
    }

    static lemma FewerTwice(a: seq<Path>, b: seq<Path>, c: seq<Path>)
      requires FewerUses(a, b) && FewerUses(b, c)
      ensures FewerUses(a, c)
    {
    }

    static lemma UnusedAboveAll(paths: seq<Path>, cids: seq<Slot>, largest: nat, gone: set<nat>)
      requires PathsOk(paths, cids) && Accounted(cids, largest, gone)
      ensures forall d: nat :: d > largest ==> Unused(paths, d)
    {
      forall d: nat | d > largest ensures Unused(paths, d) {
        UnusedAbove(paths, cids, largest, gone, d);
      }
    }

    static lemma StillUnusedAll(paths: seq<Path>, paths': seq<Path>, largest: nat)
      requires FewerUses(paths, paths') && forall d: nat :: d > largest ==> Unused(paths, d)
      ensures forall d: nat :: d > largest ==> Unused(paths', d)
    {
      forall d: nat | d > largest ensures Unused(paths', d) {
        StillUnused(paths, paths', d);
      }
    }
  }
}
