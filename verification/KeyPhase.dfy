/** Updating the keys of 1-RTT packets (aead_decrypt_1rtt, received_key_update, update_1rtt_egress_key,
    commit_send_packet and handle_ack_frame of lib/quicly.c; section 6 of RFC 9001). */
module KeyPhases {
  import opened Basics

  const NEVER: nat := UINT64_MAX

  /** What a slot for decryption has; a key of 1-RTT packets is identified by its phase. */
  datatype Key = NoKey | ZeroRtt | OneRtt(phase: nat)

  /** `secret` is the phase of the ingress secret, from which the next key is derived. */
  datatype Phases = Phases(aead: seq<Key>, secret: nat, prepared: nat, decrypted: nat, egress: nat,
                           last: nat, next: nat, packetNumber: nat)

  /** A packet, as the bit of the key phase that it carries and the keys under which it decrypts. */
  datatype Packet = Packet(bit: nat, opens: set<Key>)

  datatype Event =
    | Receive(p: Packet)
    | PreDecrypted(phase: nat)
    | SendPacket
    | AckPacket(pn: nat, perKey: nat)

  /** The state when 1-RTT keys become available; the first ack confirms that the peer has them. */
  function Init(zeroRtt: bool, packetNumber: nat): (s: Phases)
  {
    Phases([OneRtt(0), if zeroRtt then ZeroRtt else NoKey], 0, 0, 0, 0, 0, NEVER, packetNumber)
  }

  /** Derives the next key into a slot. */
  function Prepare(s: Phases, i: nat): (r: Phases)
    requires i < |s.aead|
  {
    s.(aead := s.aead[i := OneRtt(s.secret + 1)], secret := s.secret + 1, prepared := s.prepared + 1)
  }

  function UpdateEgress(s: Phases): (r: Phases)
  {
    s.(egress := s.egress + 1, last := s.packetNumber, next := NEVER)
  }

  function KeyUpdateReceived(s: Phases, phase: nat): (r: Phases)
  {
    var t := s.(decrypted := phase);
    if t.egress < phase then UpdateEgress(t) else t
  }

  /** Whether a failure to decrypt calls for the next key. */
  predicate MayRetry(s: Phases, bit: nat)
  {
    s.decrypted == s.prepared && s.decrypted % 2 != bit
  }

  /** The keys with which a packet is tried. */
  function Tried(s: Phases, p: Packet): (r: Phases)
    requires p.bit < 2 && |s.aead| == 2
  {
    if s.aead[p.bit] == NoKey then Prepare(s, p.bit)
    else if s.aead[p.bit] !in p.opens && MayRetry(s, p.bit) then Prepare(s, p.bit)
    else s
  }

  function Received(s: Phases, p: Packet): (r: Phases)
    requires p.bit < 2 && |s.aead| == 2
  {
    var t := Tried(s, p);
    if t.aead[p.bit] in p.opens && t.prepared != t.decrypted && t.prepared % 2 == p.bit
    then KeyUpdateReceived(t, t.prepared)
    else t
  }

  predicate Enabled(s: Phases, e: Event)
  {
    |s.aead| == 2 &&
    match e
    case Receive(p) => p.bit < 2
    case PreDecrypted(phase) => s.decrypted < phase <= s.prepared
    case SendPacket => s.packetNumber + 1 < NEVER
    case AckPacket(pn, perKey) => pn < s.packetNumber
  }

  /** Whether sending the next packet updates the key first. */
  predicate UpdatesLocally(s: Phases)
  {
    s.packetNumber >= s.next
  }

  function Next(s: Phases, e: Event): (r: Phases)
    requires Enabled(s, e)
  {
    match e
    case Receive(p) => Received(s, p)
    case PreDecrypted(phase) => KeyUpdateReceived(s, phase)
    case SendPacket =>
      var t := if UpdatesLocally(s) then UpdateEgress(s) else s;
      t.(packetNumber := t.packetNumber + 1)
    case AckPacket(pn, perKey) =>
      if s.last <= pn then s.(last := NEVER, next := s.packetNumber + perKey) else s
  }

  // ----- the invariant -----

  /** The slot of the phase prepared last has its key, and the other slot the key of the phase before. */
  ghost predicate SlotsOk(s: Phases)
  {
    && |s.aead| == 2 && s.secret == s.prepared && s.aead[s.prepared % 2] == OneRtt(s.prepared)
    && var other := s.aead[(s.prepared + 1) % 2];
       if s.prepared == 0 then other == NoKey || other == ZeroRtt else other == OneRtt(s.prepared - 1)
  }

  ghost predicate PhasesOk(s: Phases)
  {
    && SlotsOk(s) && (s.prepared == s.decrypted || s.prepared == s.decrypted + 1) && s.decrypted <= s.egress
    && s.packetNumber < NEVER && (s.last == NEVER || (s.last <= s.packetNumber && s.next == NEVER))
  }

  lemma PrepareKeeps(s: Phases, i: nat)
    requires SlotsOk(s) && i < 2 && s.prepared % 2 != i
    ensures SlotsOk(Prepare(s, i))
  {
    assert (s.prepared + 1) % 2 == i && (s.prepared + 2) % 2 == s.prepared % 2;
  }

  lemma TriedKeeps(s: Phases, p: Packet)
    requires PhasesOk(s) && p.bit < 2
    ensures PhasesOk(Tried(s, p)) && s.prepared <= Tried(s, p).prepared <= s.prepared + 1
    ensures var t := Tried(s, p);
            t.decrypted == s.decrypted && t.egress == s.egress && t.last == s.last && t.next == s.next
  {
    hide SlotsOk;
    SlotOfBit(s, p.bit);
    if s.prepared % 2 != p.bit {
      PrepareKeeps(s, p.bit);
    }
  }

  /** A slot without a key is not the one of the phase prepared last. */
  lemma SlotOfBit(s: Phases, bit: nat)
    requires SlotsOk(s) && bit < 2
    ensures s.aead[bit] == NoKey ==> s.prepared == 0 && s.prepared % 2 != bit
  {
  }

  /** Once a key was derived for a packet, no other is. */
  lemma NoSecondRetry(s: Phases, bit: nat)
    requires PhasesOk(s) && bit < 2 && (s.aead[bit] == NoKey || MayRetry(s, bit))
    ensures !MayRetry(Prepare(s, bit), bit)
  {
  }

  lemma ReceiveKeeps(s: Phases, p: Packet)
    requires PhasesOk(s) && p.bit < 2
    ensures PhasesOk(Received(s, p))
  {
    hide Tried;
    TriedKeeps(s, p);
  }

  lemma EventKeeps(s: Phases, e: Event)
    requires PhasesOk(s) && Enabled(s, e)
    ensures PhasesOk(Next(s, e))
  {
    match e
    case Receive(p) => ReceiveKeeps(s, p);
    case _ =>
  }

  ghost predicate Run(trace: seq<Phases>, events: seq<Event>, zeroRtt: bool, first: nat)
  {
    && |trace| == |events| + 1 && first < NEVER && trace[0] == Init(zeroRtt, first)
    && forall k :: 0 <= k < |events| ==> Enabled(trace[k], events[k]) && trace[k + 1] == Next(trace[k], events[k])
  }

  /** In every state of every run of decryptable and undecryptable packets, at most one phase is prepared beyond the one
      decrypted, the slots hold the keys of the last two phases, and the egress phase has caught up. */
  lemma {:induction false} AlwaysOk(trace: seq<Phases>, events: seq<Event>, zeroRtt: bool, first: nat, k: nat)
    requires Run(trace, events, zeroRtt, first) && k < |trace|
    ensures PhasesOk(trace[k])
  {
    if k > 0 {
      AlwaysOk(trace, events, zeroRtt, first, k - 1);
      EventKeeps(trace[k - 1], events[k - 1]);
    }
  }

  /** A packet that decrypts was protected with the key of one of the last two phases, the one that its bit tells, and
      then the phase decrypted is at least that one. */
  lemma OpenedPhase(s: Phases, p: Packet)
    requires PhasesOk(s) && p.bit < 2 && ZeroRtt !in p.opens
    ensures var t := Tried(s, p); t.aead[p.bit] in p.opens && t.aead[p.bit] != NoKey ==>
              && t.aead[p.bit].OneRtt? && t.aead[p.bit].phase % 2 == p.bit
              && s.prepared <= t.aead[p.bit].phase + 1
              && t.aead[p.bit].phase <= Received(s, p).decrypted <= t.aead[p.bit].phase + 1
  {
    if s.prepared % 2 != p.bit {
      assert (s.prepared + 1) % 2 == p.bit;
      PrepareKeeps(s, p.bit);
    }
    var t := Tried(s, p);
    assert t.aead[p.bit].OneRtt? ==> t.aead[p.bit].phase == t.prepared || t.aead[p.bit].phase + 1 == t.prepared;
  }

  /** Only a packet that decrypts under the key of the next phase moves the phase, and it always does unless the packet
      opens under the key that is still in the slot. The egress phase follows if it is behind. */
  lemma PhaseMoves(s: Phases, p: Packet)
    requires PhasesOk(s) && p.bit < 2
    ensures var r := Received(s, p);
            && (r.decrypted != s.decrypted <==>
                  && p.bit == (s.decrypted + 1) % 2 && OneRtt(s.decrypted + 1) in p.opens
                  && (s.prepared == s.decrypted + 1 || s.aead[p.bit] == NoKey || s.aead[p.bit] !in p.opens))
            && (r.decrypted != s.decrypted ==> r.decrypted == s.decrypted + 1)
            && (r.decrypted != s.decrypted && s.egress < r.decrypted ==>
                  r.egress == s.egress + 1 == r.decrypted && r.last == s.packetNumber && r.next == NEVER)
            && (r.decrypted == s.decrypted || s.egress >= r.decrypted ==>
                  r.egress == s.egress && r.last == s.last && r.next == s.next)
            && r.packetNumber == s.packetNumber
  {
    assert (s.prepared + 1) % 2 == 1 - s.prepared % 2;
    if s.prepared % 2 != p.bit {
      PrepareKeeps(s, p.bit);
    }
  }

  /** In every run, the phase decrypted only rises, by a packet that opens under the key of the new phase or by one that
      was decrypted elsewhere; the egress phase rises with it, or when an update is due. */
  lemma PhasesRise(trace: seq<Phases>, events: seq<Event>, zeroRtt: bool, first: nat, k: nat)
    requires Run(trace, events, zeroRtt, first) && k < |events|
    ensures var s, r := trace[k], trace[k + 1];
            && s.decrypted <= r.decrypted && s.egress <= r.egress
            && (r.decrypted != s.decrypted ==>
                  match events[k]
                  case Receive(p) => r.decrypted == s.decrypted + 1 && OneRtt(r.decrypted) in p.opens
                  case PreDecrypted(phase) => r.decrypted == phase
                  case _ => false)
            && (r.egress != s.egress ==>
                  && r.egress == s.egress + 1
                  && if events[k] == SendPacket then s.packetNumber >= s.next
                     else r.egress == r.decrypted != s.decrypted)
  {
    AlwaysOk(trace, events, zeroRtt, first, k);
    match events[k]
    case Receive(p) => PhaseMoves(trace[k], p);
    case _ =>
  }

  predicate LocalUpdate(s: Phases, e: Event)
  {
    e == SendPacket && UpdatesLocally(s)
  }

  /** Since the update at packet number `pn`, either an ack for that packet or a later one has come, or none can be
      updated locally. */
  ghost predicate Waiting(s: Phases, pn: nat)
  {
    s.next == NEVER && pn <= s.last && s.last != NEVER && pn <= s.packetNumber
  }

  lemma WaitingOn(s: Phases, e: Event, pn: nat)
    requires PhasesOk(s) && Enabled(s, e) && Waiting(s, pn)
    ensures !LocalUpdate(s, e)
    ensures Waiting(Next(s, e), pn) || (e.AckPacket? && e.pn >= pn)
  {
  }

  lemma StillWaiting(s: Phases, pn: nat)
    requires PhasesOk(s) && Waiting(s, pn)
    ensures forall e :: Enabled(s, e) && !(e.AckPacket? && e.pn >= pn) ==> Waiting(Next(s, e), pn) && !LocalUpdate(s, e)
  {
    forall e | Enabled(s, e) && !(e.AckPacket? && e.pn >= pn) ensures Waiting(Next(s, e), pn) && !LocalUpdate(s, e) {
      WaitingOn(s, e, pn);
    }
  }

  /** Between two locally initiated updates there is an ack for a packet at or above the packet number of the first. */
  lemma {:induction false} AckBetweenUpdates(trace: seq<Phases>, events: seq<Event>, zeroRtt: bool, first: nat, i: nat,
                                             j: nat)
    requires Run(trace, events, zeroRtt, first) && i < j < |events| && LocalUpdate(trace[i], events[i])
             && LocalUpdate(trace[j], events[j])
    ensures exists k :: i < k < j && events[k].AckPacket? && events[k].pn >= trace[i].packetNumber
  {
    AlwaysOk(trace, events, zeroRtt, first, i);
    var pn := trace[i].packetNumber;
    assert trace[i + 1] == Next(trace[i], events[i]);
    assert Waiting(trace[i + 1], pn);
    var m := i + 1;
    while m < j && !(events[m].AckPacket? && events[m].pn >= pn)
      invariant i < m <= j && Waiting(trace[m], pn)
    {
      AlwaysOk(trace, events, zeroRtt, first, m);
      WaitingOn(trace[m], events[m], pn);
      assert trace[m + 1] == Next(trace[m], events[m]);
      m := m + 1;
    }
    AlwaysOk(trace, events, zeroRtt, first, m);
    WaitingOn(trace[m], events[m], pn);
  }

  class KeySchedule {
    var aead: seq<Key>
    var secret: nat
    var prepared: nat
    var decrypted: nat
    var egress: nat
    var last: nat
    var next: nat
    var packetNumber: nat

    ghost function State(): Phases
      reads this
    {
      Phases(aead, secret, prepared, decrypted, egress, last, next, packetNumber)
    }

    constructor (zeroRtt: bool, first: nat)
      requires first < NEVER
      ensures State() == Init(zeroRtt, first) && PhasesOk(State())
      ensures prepared == decrypted == egress == 0 && last == 0 && next == NEVER && packetNumber == first
    {
      aead := [OneRtt(0), if zeroRtt then ZeroRtt else NoKey];
      secret, prepared, decrypted, egress, last, next, packetNumber := 0, 0, 0, 0, 0, NEVER, first;
    }

    /** Moves to the next egress key. From then on no other update is initiated before an ack for a packet sent under
        it. */
    method UpdateEgressKey()
      requires SlotsOk(State()) && decrypted <= egress + 1 && packetNumber < NEVER
      requires prepared == decrypted || prepared == decrypted + 1
      modifies this
      ensures State() == UpdateEgress(old(State())) && PhasesOk(State())
      ensures Waiting(State(), packetNumber) && !UpdatesLocally(State())
      ensures forall e :: Enabled(State(), e) && !(e.AckPacket? && e.pn >= packetNumber) ==>
                Waiting(Next(State(), e), packetNumber) && !LocalUpdate(State(), e)
    {
      egress, last, next := egress + 1, packetNumber, NEVER;
      StillWaiting(State(), packetNumber);
    }

    method ReceivedKeyUpdate(phase: nat)
      requires PhasesOk(State()) && decrypted < phase <= prepared
      modifies this
      ensures State() == KeyUpdateReceived(old(State()), phase) && PhasesOk(State())
      ensures decrypted == phase && egress == Max(old(egress), phase) && packetNumber == old(packetNumber)
      ensures if old(egress) < phase then last == packetNumber && next == NEVER
              else last == old(last) && next == old(next)
    {
      EventKeeps(State(), PreDecrypted(phase));
      decrypted := phase;
      if egress < decrypted {
        UpdateEgressKey();
      }
    }

    /** Tries to decrypt a packet, deriving the next key at most once. */
    method Decrypt(p: Packet) returns (ok: bool, derived: nat)
      requires PhasesOk(State()) && p.bit < 2
      modifies this
      ensures State() == Received(old(State()), p) && PhasesOk(State())
      ensures decrypted != old(decrypted) <==>
              && p.bit == (old(decrypted) + 1) % 2 && OneRtt(old(decrypted) + 1) in p.opens
              && (old(prepared) == old(decrypted) + 1 || old(aead)[p.bit] == NoKey || old(aead)[p.bit] !in p.opens)
      ensures !ok ==> decrypted == old(decrypted) && egress == old(egress) && last == old(last) && next == old(next)
      ensures derived <= 1 && prepared == old(prepared) + derived
      ensures ok <==> Tried(old(State()), p).aead[p.bit] in p.opens
    {
      hide SlotsOk, Prepare;
      PhaseMoves(State(), p);
      TriedKeeps(State(), p);
      ok, derived := TryKeys(p);
      if ok && prepared != decrypted && prepared % 2 == p.bit {
        ReceivedKeyUpdate(prepared);
      }
    }

    /** Decrypts with the key that the packet calls for. One that is missing is derived first; one that fails is
        replaced by the next one, unless that was done already. */
    method TryKeys(p: Packet) returns (ok: bool, derived: nat)
      requires PhasesOk(State()) && p.bit < 2
      modifies this
      ensures State() == Tried(old(State()), p)
      ensures derived == 1 <==>
              || old(aead)[p.bit] == NoKey
              || (old(aead)[p.bit] !in p.opens && decrypted == old(prepared) && decrypted % 2 != p.bit)
      ensures derived <= 1 && prepared == old(prepared) + derived
      ensures ok <==> aead[p.bit] in p.opens
    {
      if aead[p.bit] == NoKey || MayRetry(State(), p.bit) {
        NoSecondRetry(State(), p.bit);
      }
      derived := 0;
      var retry := aead[p.bit] == NoKey;
      while true
        invariant |aead| == 2 && State() == old(State()) && derived == 0
        invariant retry ==> aead[p.bit] == NoKey || (aead[p.bit] !in p.opens && MayRetry(State(), p.bit))
        invariant !retry ==> aead[p.bit] != NoKey
        decreases if retry then 0 else 1
      {
        if retry {
          aead, secret, prepared := aead[p.bit := OneRtt(secret + 1)], secret + 1, prepared + 1;
          derived := derived + 1;
          assert State() == Prepare(old(State()), p.bit);
        }
        ok := aead[p.bit] in p.opens;
        if ok || !(decrypted == prepared && decrypted % 2 != p.bit) {
          return;
        }
        retry := true;
      }
    }

    /** Takes the next packet number, updating the key first when it is due. */
    method OnSendPacket()
      requires PhasesOk(State()) && packetNumber + 1 < NEVER
      modifies this
      ensures State() == Next(old(State()), SendPacket) && PhasesOk(State())
      ensures packetNumber == old(packetNumber) + 1 && decrypted == old(decrypted)
      ensures if old(packetNumber) >= old(next)
              then egress == old(egress) + 1 && last == old(packetNumber) && next == NEVER
              else egress == old(egress) && last == old(last) && next == old(next)
    {
      EventKeeps(State(), SendPacket);
      if packetNumber >= next {
        UpdateEgressKey();
      }
      packetNumber := packetNumber + 1;
    }

    method OnAcked(pn: nat, perKey: nat)
      requires PhasesOk(State()) && pn < packetNumber
      modifies this
      ensures State() == Next(old(State()), AckPacket(pn, perKey)) && PhasesOk(State())
      ensures if old(last) <= pn then last == NEVER && next == packetNumber + perKey
              else last == old(last) && next == old(next)
      ensures egress == old(egress) && decrypted == old(decrypted) && packetNumber == old(packetNumber)
    {
      EventKeeps(State(), AckPacket(pn, perKey));
      if last <= pn {
        last, next := NEVER, packetNumber + perKey;
      }
    }
  }
}
