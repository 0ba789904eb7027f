/** The buffers between a stream and its application (lib/streambuf.c). */
module StreamBufs {
  import opened Basics
  import opened Ranges

  function Flatten(vecs: seq<seq<Byte>>): (r: seq<Byte>)
  {
    if vecs == [] then [] else vecs[0] + Flatten(vecs[1..])
  }

  lemma {:induction false} FlattenSplit(vecs: seq<seq<Byte>>, i: nat)
    requires i <= |vecs|
    ensures Flatten(vecs) == Flatten(vecs[..i]) + Flatten(vecs[i..])
    decreases i
  {
    if i == 0 {
      assert vecs[0..] == vecs && Flatten(vecs[..0]) == [];
    } else {
      FlattenSplit(vecs[1..], i - 1);
      assert vecs[..i][1..] == vecs[1..][..i - 1] && vecs[1..][i - 1..] == vecs[i..];
    }
  }

  lemma FlattenNext(vecs: seq<seq<Byte>>, i: nat)
    requires i < |vecs|
    ensures Flatten(vecs[i..]) == vecs[i] + Flatten(vecs[i + 1..])
  {
    assert vecs[i..][1..] == vecs[i + 1..];
  }

  lemma FlattenAppend(vecs: seq<seq<Byte>>, v: seq<Byte>)
    ensures Flatten(vecs + [v]) == Flatten(vecs) + v
  {
    FlattenSplit(vecs + [v], |vecs|);
    assert (vecs + [v])[..|vecs|] == vecs && (vecs + [v])[|vecs|..] == [v];
    assert Flatten([v]) == v + Flatten([]);
  }

  /** What the application has written and the peer has yet to ack. */
  class SendBuf {
    var vecs: seq<seq<Byte>>
    var offInFirst: nat
    var bytesWritten: nat

    ghost predicate Valid()
      reads this
    {
      && (offInFirst > 0 ==> vecs != [] && offInFirst < |vecs[0]|)
      && offInFirst <= |Flatten(vecs)| <= bytesWritten + offInFirst
    }

    ghost function Contents(): seq<Byte>
      requires Valid()
      reads this
    {
      Flatten(vecs)[offInFirst..]
    }

    constructor ()
      ensures Valid() && Contents() == [] && bytesWritten == 0
    {
      vecs, offInFirst, bytesWritten := [], 0, 0;
    }

    /** Appends a vector. `memory` says whether the array of vectors could be enlarged if need be, `activated` whether
        the stream could then be activated; if not, the vector is not retained. */
    method WriteVec(v: seq<Byte>, memory: bool, activated: bool) returns (ok: bool)
      requires Valid()
      modifies this
      ensures Valid() && (ok <==> memory && activated)
      ensures ok ==> Contents() == old(Contents()) + v && bytesWritten == old(bytesWritten) + |v|
      ensures !ok ==> unchanged(this)
    {
      hide Flatten;
      if !memory {
        return false;
      }
      FlattenAppend(vecs, v);
      AppendedAfter(Flatten(vecs), v, offInFirst);
      ghost var vecs0 := vecs;
      vecs := vecs + [v];
      bytesWritten := bytesWritten + |v|;
      if !activated {
        vecs := vecs[..|vecs| - 1];
        bytesWritten := bytesWritten - |v|;
        assert vecs == vecs0;
      }
      return activated;
    }

    static lemma AppendedAfter(a: seq<Byte>, v: seq<Byte>, o: nat)
      requires o <= |a|
      ensures (a + v)[o..] == a[o..] + v
    {
    }

    /** Discards the bytes that were acked. */
    method Shift(delta0: nat)
      requires Valid() && delta0 <= |Contents()|
      modifies this
      ensures Valid() && Contents() == old(Contents())[delta0..] && bytesWritten == old(bytesWritten)
    {
      hide Flatten;
      ghost var all := Contents();
      NothingAfter(vecs);
      var delta: nat, i: nat := delta0, 0;
      assert vecs[0..] == vecs;
      while delta != 0
        invariant i <= |vecs| && unchanged(`vecs) && unchanged(`bytesWritten) && delta <= delta0
        invariant offInFirst > 0 ==> i < |vecs| && offInFirst < |vecs[i]|
        invariant offInFirst + delta <= |Flatten(vecs[i..])|
        invariant Flatten(vecs[i..])[offInFirst + delta..] == all[delta0..]
        invariant |Flatten(vecs[i..])| <= |Flatten(vecs)|
        decreases |vecs| - i
      {
        FlattenNext(vecs, i);
        var bytesInFirst := |vecs[i]| - offInFirst;
        if delta < bytesInFirst {
          offInFirst := offInFirst + delta;
          delta := 0;
          break;
        }
        delta := delta - bytesInFirst;
        offInFirst := 0;
        i := i + 1;
      }
      vecs := vecs[i..];
    }

    static lemma NothingAfter(vecs: seq<seq<Byte>>)
      ensures Flatten(vecs[|vecs|..]) == []
    {
    }

    /** Copies what follows offset `off`, at most `capacity` bytes. Unless it ran out of room, it reached the end; when
        it reached the end, it says so unless an empty vector follows. */
    method Emit(off: nat, capacity: nat) returns (dst: seq<Byte>, wroteAll: bool)
      requires Valid() && off <= |Contents()|
      ensures var n := Min(capacity, |Contents()| - off); dst == Contents()[off..off + n]
      ensures if wroteAll then off + |dst| == |Contents()| else |dst| == capacity
      ensures capacity > 0 && off + |dst| == |Contents()| && (vecs == [] || vecs[|vecs| - 1] != []) ==> wroteAll
    {
      hide Flatten;
      ghost var all := Contents()[off..];
      dst, wroteAll := CopyOut(off + offInFirst, capacity, all);
    }

    /** The loop of `Emit`: copies from the offset `o0` of the concatenated vectors. */
    method CopyOut(o0: nat, capacity: nat, ghost all: seq<Byte>) returns (dst: seq<Byte>, wroteAll: bool)
      requires o0 <= |Flatten(vecs)| && all == Flatten(vecs)[o0..]
      ensures |dst| <= capacity && |dst| <= |all| && dst == all[..|dst|]
      ensures if wroteAll then dst == all else |dst| == capacity
      ensures capacity > 0 && dst == all && (vecs == [] || vecs[|vecs| - 1] != []) ==> wroteAll
    {
      hide Flatten, Copied;
      var o: nat, room: nat, k: nat := o0, capacity, 0;
      dst := [];
      CopyStart(vecs, o, all);
      while room != 0 && k < |vecs|
        invariant k <= |vecs| && |dst| + room == capacity && Copied(dst, Flatten(vecs[k..]), o, all)
        invariant room < capacity ==> o == 0
        decreases |vecs| - k
      {
        FlattenNext(vecs, k);
        ghost var rest := Flatten(vecs[k + 1..]);
        if o < |vecs[k]| {
          var bytes := |vecs[k]| - o;
          if room < bytes {
            CopyPart(dst, vecs[k], rest, o, o + room, all);
            dst, room, o := dst + vecs[k][o..o + room], 0, o + room;
            break;
          }
          CopyPart(dst, vecs[k], rest, o, |vecs[k]|, all);
          dst, room, o := dst + vecs[k][o..], room - bytes, |vecs[k]|;
        }
        CopySkip(dst, vecs[k], rest, o, all);
        o := o - |vecs[k]|;
        k := k + 1;
      }
      CopyDone(vecs, k, dst, o, all);
      if k < |vecs| {
        FlattenNext(vecs, k);
        LastWithin(vecs, k);
        CopyLeft(dst, Flatten(vecs[k..]), o, all);
      }
      wroteAll := !(room == 0 && k < |vecs|);
    }

    /** `dst` followed by what `rest` has from `o` on is `all`. */
    static ghost predicate Copied(dst: seq<Byte>, rest: seq<Byte>, o: nat, all: seq<Byte>)
    {
      o <= |rest| && dst + rest[o..] == all
    }

    static lemma CopyLeft(dst: seq<Byte>, rest: seq<Byte>, o: nat, all: seq<Byte>)
      requires Copied(dst, rest, o, all)
      ensures |all| == |dst| + |rest| - o
    {
    }

    static lemma {:induction false} LastWithin(vecs: seq<seq<Byte>>, k: nat)
      requires k < |vecs|
      ensures |Flatten(vecs[k..])| >= |vecs[|vecs| - 1]|
      decreases |vecs| - k
    {
      FlattenNext(vecs, k);
      if k + 1 < |vecs| {
        LastWithin(vecs, k + 1);
      }
    }

    static lemma CopyStart(vecs: seq<seq<Byte>>, o: nat, all: seq<Byte>)
      requires o <= |Flatten(vecs)| && all == Flatten(vecs)[o..]
      ensures Copied([], Flatten(vecs[0..]), o, all)
    {
      assert vecs[0..] == vecs;
    }

    static lemma CopyPart(dst: seq<Byte>, v: seq<Byte>, rest: seq<Byte>, o: nat, o': nat, all: seq<Byte>)
      requires o <= o' <= |v| && Copied(dst, v + rest, o, all)
      ensures Copied(dst + v[o..o'], v + rest, o', all) && v[o..|v|] == v[o..]
    {
      assert (v + rest)[o..] == v[o..o'] + (v + rest)[o'..];
    }

    static lemma CopySkip(dst: seq<Byte>, v: seq<Byte>, rest: seq<Byte>, o: nat, all: seq<Byte>)
      requires |v| <= o && Copied(dst, v + rest, o, all)
      ensures Copied(dst, rest, o - |v|, all)
    {
      assert (v + rest)[o..] == rest[o - |v|..];
    }

    static lemma CopyDone(vecs: seq<seq<Byte>>, k: nat, dst: seq<Byte>, o: nat, all: seq<Byte>)
      requires k <= |vecs| && Copied(dst, Flatten(vecs[k..]), o, all)
      ensures |dst| <= |all| && dst == all[..|dst|] && (k == |vecs| ==> dst == all)
    {
    }
  }

  /** `b'` is `b` with `src` written at `off`; bytes that neither of them sets are arbitrary. */
  ghost predicate Overlaid(b: seq<Byte>, b': seq<Byte>, off: nat, src: seq<Byte>)
  {
    if src == [] then b' == b
    else
      && |b'| == Max(|b|, off + |src|) && b'[off..off + |src|] == src
      && forall i :: 0 <= i < |b| && !(off <= i < off + |src|) ==> b'[i] == b[i]
  }

  /** What was received and the application has yet to read. */
  class RecvBuf {
    var data: seq<Byte>

    constructor ()
      ensures data == []
    {
      data := [];
    }

    /** Writes `src` at `off`; `spare` is what newly allocated memory happens to hold. */
    method Receive(off: nat, src: seq<Byte>, spare: seq<Byte>)
      requires off + |src| <= |data| + |spare|
      modifies this
      ensures Overlaid(old(data), data, off, src)
    {
      if |src| != 0 {
        var room := data + spare;
        var n := if |data| < off + |src| then off + |src| else |data|;
        data := room[..off] + src + room[off + |src|..n];
      }
    }

    method Shift(delta: nat)
      requires delta <= |data|
      modifies this
      ensures data == old(data)[delta..]
    {
      data := data[delta..];
    }
  }
}
