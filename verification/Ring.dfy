/** The server's window array read as a map: slot `(n - 1) % size` is the place of
    packet `n`. */
module Ring {
  import opened Bytes
  import opened Packets

  /** A slot whose `len` is -1 is free; otherwise it holds a whole packet as received. */
  datatype Slot = Free | Filled(packet: seq<byte>)

  /** Every packet sits in the slot of its own number, and the numbers lie in the window of
      `|ring|` packets that starts at `first`. */
  predicate RingOk(ring: seq<Slot>, first: nat) {
    && 1 <= first && 1 <= |ring|
    && forall j | 0 <= j < |ring| && ring[j].Filled? ::
         var p := ring[j].packet;
         && |p| >= HEADER_LEN + 5
         && first <= PacketNum(p) < first + |ring|
         && (PacketNum(p) - 1) % |ring| == j
  }

  function SlotOf(ring: seq<Slot>, n: nat): (j: nat)
    requires 1 <= n && 1 <= |ring|
    ensures j < |ring|
  {
    (n - 1) % |ring|
  }

  /** The packets in the ring, by number. */
  function HeldIn(ring: seq<Slot>, first: nat): map<nat, seq<byte>>
    requires RingOk(ring, first)
  {
    map n: nat | first <= n < first + |ring| && ring[SlotOf(ring, n)].Filled? ::
      Payload(ring[SlotOf(ring, n)].packet)
  }

  lemma SlotsDiffer(ring: seq<Slot>, first: nat, n: nat, n': nat)
    requires 1 <= first <= n < first + |ring| && first <= n' < first + |ring| && n != n'
    ensures SlotOf(ring, n) != SlotOf(ring, n')
  {
    if SlotOf(ring, n) == SlotOf(ring, n') {
      SameSlot(n - 1, n' - 1, |ring|);
    }
  }

  /** Nothing is held exactly when every slot is free. */
  lemma EmptyExactlyWhenAllFree(ring: seq<Slot>, first: nat)
    requires RingOk(ring, first)
    ensures HeldIn(ring, first) == map[] <==> forall j | 0 <= j < |ring| :: ring[j].Free?
  {
    forall j | 0 <= j < |ring| && ring[j].Filled?
      ensures PacketNum(ring[j].packet) in HeldIn(ring, first)
    {
    }
    if HeldIn(ring, first) != map[] {
      var n :| n in HeldIn(ring, first);
      assert ring[SlotOf(ring, n)].Filled?;
    }
  }

  lemma FirstIsHeldExactlyWhenFilled(ring: seq<Slot>, first: nat)
    requires RingOk(ring, first)
    ensures first in HeldIn(ring, first) <==> ring[SlotOf(ring, first)].Filled?
    ensures first in HeldIn(ring, first) ==>
              && |ring[SlotOf(ring, first)].packet| >= HEADER_LEN + 5
              && HeldIn(ring, first)[first] == Payload(ring[SlotOf(ring, first)].packet)
  {
  }

  /** Freeing the first slot keeps the rest in order for the window one packet further on. */
  lemma SlideKeepsOrder(ring: seq<Slot>, first: nat)
    requires RingOk(ring, first)
    ensures RingOk(ring[SlotOf(ring, first) := Free], first + 1)
  {
    var slot := SlotOf(ring, first);
    var slid := ring[slot := Free];
    forall j | 0 <= j < |ring| && slid[j].Filled?
      ensures first + 1 <= PacketNum(slid[j].packet)
    {
      assert ring[j] == slid[j] && j != slot;
    }
  }

  /** ... and leaves every other packet of the window where it was. */
  lemma SlideKeepsPackets(ring: seq<Slot>, first: nat, n: nat)
    requires 1 <= first < n <= first + |ring| && 1 <= |ring|
    ensures var slid := ring[SlotOf(ring, first) := Free];
      slid[SlotOf(slid, n)] == if n < first + |ring| then ring[SlotOf(ring, n)] else Free
  {
    if n < first + |ring| {
      SlotsDiffer(ring, first, first, n);
    } else {
      NextLap(first - 1, |ring|);
    }
  }

  /** Freeing the first slot and sliding the window removes the first packet, and nothing else. */
  lemma SlideWindow(ring: seq<Slot>, first: nat)
    requires RingOk(ring, first)
    ensures var slid := ring[SlotOf(ring, first) := Free];
      && RingOk(slid, first + 1)
      && HeldIn(slid, first + 1) == HeldIn(ring, first) - {first}
  {
    SlideKeepsOrder(ring, first);
    var slid := ring[SlotOf(ring, first) := Free];
    forall n: nat | first < n <= first + |ring|
      ensures slid[SlotOf(slid, n)] == if n < first + |ring| then ring[SlotOf(ring, n)] else Free
    {
      SlideKeepsPackets(ring, first, n);
    }
  }

  /** Storing a packet of the window in its slot adds it, or replaces an earlier copy of it. */
  lemma StorePacket(ring: seq<Slot>, first: nat, p: seq<byte>)
    requires RingOk(ring, first) && |p| >= HEADER_LEN + 5
    requires first <= PacketNum(p) < first + |ring|
    ensures var stored := ring[SlotOf(ring, PacketNum(p)) := Filled(p)];
      && RingOk(stored, first)
      && HeldIn(stored, first) == HeldIn(ring, first)[PacketNum(p) := Payload(p)]
  {
    var num := PacketNum(p);
    var stored := ring[SlotOf(ring, num) := Filled(p)];
    forall n | first <= n < first + |ring| && n != num
      ensures stored[SlotOf(stored, n)] == ring[SlotOf(ring, n)]
    {
      SlotsDiffer(ring, first, n, num);
    }
    assert RingOk(stored, first);
  }
}
