/** The two flow-control tables as they are kept: parallel arrays, updated in place. */
module FlowTables {
  import opened Octets
  import opened FlowControl

  function Table(hs: seq<handle>, cs: seq<u16>): (es: seq<Entry>)
    requires |hs| == |cs|
    ensures |es| == |hs| && forall i :: 0 <= i < |hs| ==> es[i] == Entry(hs[i], cs[i])
  {
    seq(|hs|, i requires 0 <= i < |hs| => Entry(hs[i], cs[i]))
  }

  lemma IndexFound(es: seq<Entry>, h: handle, i: nat)
    requires i <= |es| && (forall j :: 0 <= j < i ==> es[j].handle != h)
    requires i < |es| ==> es[i].handle == h
    ensures Index(es, h) == i
  {
  }

  class Tables {
    const trackHandle: array<handle>
    const outstanding: array<u16>
    const creditHandle: array<handle>
    const creditCount: array<u16>
    var trackEntries: nat
    var total: u16
    var limit: u16
    var trackOverflow: nat
    var creditEntries: nat
    var creditOverflow: nat

    ghost predicate Valid()
      reads this
    {
      && trackHandle.Length == outstanding.Length == creditHandle.Length == creditCount.Length == HANDLES
      && trackHandle != creditHandle && outstanding != creditCount
      && trackEntries <= HANDLES && creditEntries <= HANDLES
    }

    ghost function Arrays(): set<object> {
      {trackHandle as object, outstanding as object, creditHandle as object, creditCount as object}
    }

    ghost function InFlight(): Acl
      reads this, trackHandle, outstanding
      requires Valid()
    {
      Acl(Table(trackHandle[..trackEntries], outstanding[..trackEntries]), total, limit, trackOverflow)
    }

    ghost function Owed(): (c: Credits)
      reads this, creditHandle, creditCount
      requires Valid()
      ensures |c.entries| <= HANDLES
    {
      Credits(Table(creditHandle[..creditEntries], creditCount[..creditEntries]), creditOverflow)
    }

    constructor ()
      ensures Valid() && InFlight() == Acl([], 0, 0, 0) && Owed() == NOTHING_OWED
      ensures fresh(trackHandle) && fresh(outstanding) && fresh(creditHandle) && fresh(creditCount)
    {
      trackHandle := new handle[HANDLES](_ => 0);
      outstanding := new u16[HANDLES](_ => 0);
      creditHandle := new handle[HANDLES](_ => 0);
      creditCount := new u16[HANDLES](_ => 0);
      trackEntries, total, limit, trackOverflow := 0, 0, 0, 0;
      creditEntries, creditOverflow := 0, 0;
    }

    /** Find the link, opening a slot for it when asked to; minus one says that there is none. */
    method AclSlot(h: handle, create: bool) returns (slot: int)
      requires Valid()
      modifies this`trackEntries, this`trackOverflow, trackHandle, outstanding
      ensures Valid()
      ensures InFlight() == if create then Opened(old(InFlight()), h) else old(InFlight())
      ensures slot == if Tracks(InFlight().entries, h) then Index(InFlight().entries, h) else -1
      ensures Owed() == old(Owed())
    {
      for i := 0 to trackEntries
        invariant forall j :: 0 <= j < i ==> trackHandle[j] != h
      {
        if trackHandle[i] == h {
          IndexFound(InFlight().entries, h, i);
          return i;
        }
      }
      IndexFound(InFlight().entries, h, trackEntries);
      if !create {
        return -1;
      }
      if trackEntries >= HANDLES {
        trackOverflow := trackOverflow + 1;
        return -1;
      }
      ghost var before := InFlight().entries;
      trackHandle[trackEntries] := h;
      outstanding[trackEntries] := 0;
      trackEntries := trackEntries + 1;
      assert InFlight().entries == before + [Entry(h, 0)];
      IndexFound(InFlight().entries, h, trackEntries - 1);
      return trackEntries - 1;
    }

    method AclAtLimit(h: handle) returns (over: bool)
      requires Valid()
      modifies this`trackEntries, this`trackOverflow, trackHandle, outstanding
      ensures Valid() && (over, InFlight()) == AtLimit(old(InFlight()), h)
      ensures Owed() == old(Owed())
    {
      if limit == 0 {
        return false;
      }
      var slot := AclSlot(h, true);
      if slot < 0 {
        return false;
      }
      return total >= limit;
    }

    method AclPutTracked(h: handle)
      requires Valid()
      modifies this`trackEntries, this`trackOverflow, this`total, trackHandle, outstanding
      ensures Valid() && InFlight() == FlowControl.Put(old(InFlight()), h)
      ensures Owed() == old(Owed())
    {
      hide Index;
      var slot := AclSlot(h, true);
      if slot >= 0 {
        ghost var slots := InFlight();
        outstanding[slot] := Up(outstanding[slot]);
        total := Up(total);
        assert InFlight().entries == SetCount(slots.entries, slot, Up(slots.entries[slot].count));
      }
    }

    method AclForget(h: handle)
      requires Valid()
      modifies this`trackEntries, this`trackOverflow, this`total, trackHandle, outstanding
      ensures Valid() && InFlight() == Forget(old(InFlight()), h)
      ensures Owed() == old(Owed())
    {
      hide Index;
      var slot := AclSlot(h, false);
      if slot < 0 {
        return;
      }
      ghost var before := InFlight().entries;
      total := if total > outstanding[slot] then total - outstanding[slot] else 0;
      var last := trackEntries - 1;
      trackHandle[slot] := trackHandle[last];
      outstanding[slot] := outstanding[last];
      trackEntries := last;
      assert InFlight().entries == SwapRemove(before, slot);
    }

    /** Take a completed count off a link, but never more than the link has. */
    method Complete(h: handle, done: u16)
      requires Valid()
      modifies this`trackEntries, this`trackOverflow, this`total, trackHandle, outstanding
      ensures Valid() && InFlight() == Free(old(InFlight()), Entry(h, done))
      ensures Owed() == old(Owed())
    {
      hide Index;
      var slot := AclSlot(h, false);
      if slot >= 0 {
        ghost var before := InFlight().entries;
        var freed := if outstanding[slot] < done then outstanding[slot] else done;
        outstanding[slot] := outstanding[slot] - freed;
        total := (total - freed) % 0x1_0000;
        assert InFlight().entries == SetCount(before, slot, before[slot].count - freed);
      }
    }

    /** The loop over a Number Of Completed Packets event; one it is cut short by ends it. */
    method CompleteAll(e: seq<byte>)
      requires Valid() && |e| >= 3
      modifies this`trackEntries, this`trackOverflow, this`total, trackHandle, outstanding
      ensures Valid() && InFlight() == FreeAll(old(InFlight()), PairsFrom(e, 0))
      ensures Owed() == old(Owed())
    {
      hide Free;
      hide FreeAll;
      hide PairsFrom;
      var declared: nat := e[2];
      ghost var start := InFlight();
      for i := 0 to declared
        invariant Valid() && Owed() == old(Owed())
        invariant FreeAll(InFlight(), PairsFrom(e, i)) == FreeAll(start, PairsFrom(e, 0))
      {
        PairsStep(InFlight(), e, i);
        var off := 3 + 4 * i;
        if off + 4 > |e| {
          return;
        }
        Complete(HandleAt(e[off], e[off + 1]), Le16(e[off + 2], e[off + 3]));
      }
      PairsStep(InFlight(), e, declared);
    }

    method AclTrackEvent(e: seq<byte>)
      requires Valid()
      modifies this`trackEntries, this`trackOverflow, this`total, trackHandle, outstanding
      ensures Valid() && InFlight() == Track(old(InFlight()), e)
      ensures Owed() == old(Owed())
    {
      hide FreeAll;
      hide PairsFrom;
      hide Forget;
      if |e| < 2 {
        return;
      }
      if e[0] == COMPLETED_PACKETS && |e| >= 3 {
        CompleteAll(e);
        return;
      }
      if e[0] == DISCONNECTION_COMPLETE && |e| >= 5 {
        if e[2] != 0 {
          return;
        }
        AclForget(HandleAt(e[3], e[4]));
      }
    }

    method OweCredit(h: handle)
      requires Valid()
      modifies this`creditEntries, this`creditOverflow, creditHandle, creditCount
      ensures Valid() && Owed() == Owe(old(Owed()), h)
      ensures InFlight() == old(InFlight())
    {
      for i := 0 to creditEntries
        invariant forall j :: 0 <= j < i ==> creditHandle[j] != h
      {
        if creditHandle[i] == h {
          ghost var before := Owed().entries;
          IndexFound(before, h, i);
          creditCount[i] := Up(creditCount[i]);
          assert Owed().entries == SetCount(before, i, Up(before[i].count));
          return;
        }
      }
      ghost var before := Owed().entries;
      IndexFound(before, h, creditEntries);
      if creditEntries >= HANDLES {
        creditOverflow := creditOverflow + 1;
        return;
      }
      creditHandle[creditEntries] := h;
      creditCount[creditEntries] := 1;
      creditEntries := creditEntries + 1;
      assert Owed().entries == before + [Entry(h, 1)];
    }

    static method WriteEntry(packet: array<byte>, at: nat, h: handle, n: u16)
      requires at + 4 <= packet.Length
      modifies packet
      ensures packet[..at + 4] == old(packet[..at]) + [Lo(h), Hi(h), Lo(n), Hi(n)]
    {
      packet[at], packet[at + 1], packet[at + 2], packet[at + 3] := Lo(h), Hi(h), Lo(n), Hi(n);
    }

    /** Write the event for the whole table. */
    method FillCreditEvent(packet: array<byte>)
      requires Valid() && 3 + creditEntries * 4 <= packet.Length
      modifies packet
      ensures packet[..3 + creditEntries * 4] == CreditEvent(Owed().entries)
    {
      hide CreditEvent;
      hide EntryOctets;
      hide PairsFrom;
      hide Distinct;
      hide Lo;
      hide Hi;
      ghost var es := Owed().entries;
      CreditEventRoundTrip(es);
      packet[0], packet[1], packet[2] := COMPLETED_PACKETS, 1 + creditEntries * 4, creditEntries;
      EventHead(es);
      assert packet[..3] == CreditEvent(es)[..3];
      for i := 0 to creditEntries
        invariant packet[..3 + 4 * i] == CreditEvent(es)[..3 + 4 * i]
      {
        EventGrows(es, i);
        WriteEntry(packet, 3 + 4 * i, creditHandle[i], creditCount[i]);
      }
    }

    /** One event for everything owed, written into `packet`, or no octets; the table empties with it. */
    method BuildCreditEvent(packet: array<byte>) returns (len: nat)
      requires Valid()
      modifies this`creditEntries, packet
      ensures Valid() && len <= packet.Length && InFlight() == old(InFlight())
      ensures Owed() == Emit(old(Owed()), packet.Length).1
      ensures var event := Emit(old(Owed()), packet.Length).0;
              if len == 0 then event.None? && packet[..] == old(packet[..]) else event == Some(packet[..len])
    {
      hide CreditEvent;
      len := 3 + creditEntries * 4;
      if creditEntries == 0 || len > packet.Length {
        return 0;
      }
      FillCreditEvent(packet);
      creditEntries := 0;
    }

    method SetAclLimit(n: u16)
      requires Valid()
      modifies this`limit
      ensures Valid() && InFlight() == old(InFlight()).(limit := n)
      ensures Owed() == old(Owed())
    {
      limit := n;
    }

    /** What a reset drops: every link, and every credit owed. */
    method ResetFlowControl()
      requires Valid()
      modifies this`trackEntries, this`total, this`creditEntries
      ensures Valid() && InFlight() == ResetAcl(old(InFlight())) && Owed() == old(Owed()).(entries := [])
    {
      trackEntries, total, creditEntries := 0, 0, 0;
    }
  }

  /** One turn of the completed-packets loop. */
  lemma PairsStep(a: Acl, e: seq<byte>, i: nat)
    requires |e| >= 3 && i <= e[2]
    ensures var off := 3 + 4 * i;
            FreeAll(a, PairsFrom(e, i))
            == if i < e[2] && off + 4 <= |e|
               then FreeAll(Free(a, Entry(HandleAt(e[off], e[off + 1]), Le16(e[off + 2], e[off + 3]))),
                            PairsFrom(e, i + 1))
               else a
  {
    var off := 3 + 4 * i;
    if i < e[2] && off + 4 <= |e| {
      var pair := Entry(HandleAt(e[off], e[off + 1]), Le16(e[off + 2], e[off + 3]));
      assert PairsFrom(e, i) == [pair] + PairsFrom(e, i + 1);
      assert PairsFrom(e, i)[1..] == PairsFrom(e, i + 1);
    }
  }

  lemma EventHead(es: seq<Entry>)
    requires |es| <= HANDLES
    ensures CreditEvent(es)[..3] == [COMPLETED_PACKETS, 1 + 4 * |es|, |es|]
    ensures CreditEvent(es)[..|CreditEvent(es)|] == CreditEvent(es)
  {
  }

  lemma EventGrows(es: seq<Entry>, i: nat)
    requires i < |es| <= HANDLES && |CreditEvent(es)| == 3 + 4 * |es|
    ensures CreditEvent(es)[..3 + 4 * (i + 1)]
         == CreditEvent(es)[..3 + 4 * i] + [Lo(es[i].handle), Hi(es[i].handle), Lo(es[i].count), Hi(es[i].count)]
  {
    EntryOctetsAt(es, i);
    var e := CreditEvent(es);
    assert e[3..] == EntryOctets(es);
    assert e[3 + 4 * i] == e[3..][4 * i] && e[3 + 4 * i + 1] == e[3..][4 * i + 1];
    assert e[3 + 4 * i + 2] == e[3..][4 * i + 2] && e[3 + 4 * i + 3] == e[3..][4 * i + 3];
  }
}
