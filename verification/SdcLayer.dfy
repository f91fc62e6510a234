/** The routing layer as it is kept: dispatchers, tables and one held packet, updated in place. */
module SdcLayer {
  import opened Octets
  import opened SdcRouting
  import H4
  import CD = CommandDispatch
  import AG = AdvertisingGuard
  import FC = FlowControl
  import FT = FlowTables
  import SdcRuns

  const HELD_SIZE := 1024

  class Layer {
    const main: CD.Dispatcher
    const compat: CD.Dispatcher
    const tables: FT.Tables
    const heldPacket: array<byte>
    const supplemental: u16 -> bool
    const enforce: bool
    const legacy: bool
    var commandLast: bool
    var creditLast: bool
    var delayed: Option<u16>
    var chosen: AG.Family
    var heldLen: nat
    var heldKind: H4.Kind
    /** Every step taken, the packets taken from the host and given for it. */
    ghost var history: seq<Op>
    ghost var taken: seq<H4.Packet>
    ghost var fetched: seq<H4.Packet>
    ghost var delivered: seq<H4.Packet>

    /** The parts are in order, each by itself. */
    ghost predicate Intact()
      reads main, compat, tables, heldPacket
    {
      && main.Valid() && compat.Valid() && tables.Valid() && heldPacket.Length == HELD_SIZE
      && compat.event.Length == COMPAT_CAP
      && Apart()
    }

    /**
     The state is what the steps so far make of a fresh layer, the logs are what those
     steps took and gave, and what was given was delivered in order or is held.
     */
    ghost predicate Valid()
      reads `commandLast, `creditLast, `delayed, `chosen, `heldLen, `heldKind, `history, `taken, `fetched, `delivered
      reads heldPacket, main, main.event, compat, compat.event, tables
      reads tables.trackHandle, tables.outstanding, tables.creditHandle, tables.creditCount
    {
      && Intact() && heldLen <= HELD_SIZE
      && Recorded(Built(), history, Model(), taken, fetched)
      && AllDelimited(fetched)
      && fetched == delivered + Held()
    }

    /** Nothing is shared between the parts. */
    ghost predicate Apart() {
      && main != compat && main.event != compat.event
      && main.event != heldPacket && compat.event != heldPacket
      && main.event !in tables.Arrays() && compat.event !in tables.Arrays() && heldPacket !in tables.Arrays()
    }

    /** The packet fetched and not yet read. */
    ghost function Held(): seq<H4.Packet>
      reads `heldLen, `heldKind, heldPacket
    {
      if 0 < heldLen <= heldPacket.Length then [H4.Packet(heldKind, heldPacket[..heldLen])] else []
    }

    function Built(): Config {
      Config(main.rows, compat.rows, supplemental, main.event.Length, enforce, legacy)
    }

    ghost function Parts(): set<object> {
      {main, main.event, compat, compat.event, tables} + tables.Arrays()
    }

    ghost function Model(): (s: Sdc)
      reads `commandLast, `creditLast, `delayed, `chosen, heldPacket, main, main.event, compat, compat.event, tables
      reads tables.trackHandle, tables.outstanding, tables.creditHandle, tables.creditCount
      requires Intact()
      ensures |s.owed.entries| <= FC.HANDLES
    {
      Sdc(main.Pending(), compat.Pending(), commandLast, creditLast, delayed,
          tables.InFlight(), tables.Owed(), chosen)
    }

    constructor (commands: CD.Dispatcher, compatCommands: CD.Dispatcher, flow: FT.Tables,
                 has: u16 -> bool, enforceCredits: bool, legacyCompletion: bool)
      requires commands.Valid() && compatCommands.Valid() && flow.Valid()
      requires commands.Pending() == None == compatCommands.Pending()
      requires flow.InFlight() == FC.Acl([], 0, 0, 0) && flow.Owed() == FC.NOTHING_OWED
      requires commands != compatCommands && commands.event != compatCommands.event
      requires commands.event !in flow.Arrays() && compatCommands.event !in flow.Arrays()
      requires compatCommands.event.Length == COMPAT_CAP
      ensures Valid() && Model() == Boot(false) && Held() == [] && fresh(heldPacket)
      ensures history == [] && taken == [] && fetched == [] && delivered == []
      ensures main == commands && compat == compatCommands && tables == flow
      ensures Built() == Config(commands.rows, compatCommands.rows, has, commands.event.Length,
                                enforceCredits, legacyCompletion)
    {
      main, compat, tables := commands, compatCommands, flow;
      supplemental, enforce, legacy := has, enforceCredits, legacyCompletion;
      heldPacket := new byte[HELD_SIZE](_ => 0);
      commandLast, creditLast, delayed, chosen := false, false, None, AG.Neither;
      heldLen, heldKind, history, taken, fetched, delivered := 0, H4.Event, [], [], [], [];
    }

    /** What the Reset and LE Read Buffer Size handlers do here besides answering. */
    method HandlerEffects(opcode: u16, status: byte, limit: u16)
      requires Intact()
      modifies this`creditLast, tables
      ensures Intact() && Model() == Handled(old(Model()), opcode, status, limit)
    {
      if status != CD.SUCCESS {
        return;
      }
      if opcode == AG.HCI_RESET {
        tables.ResetFlowControl();
        creditLast := false;
      } else if opcode == READ_BUFFER_SIZE || opcode == READ_BUFFER_SIZE_V2 {
        tables.SetAclLimit(limit);
      }
    }

    /** Through the guard to the main dispatcher. */
    method DispatchMain(packet: seq<byte>, reply: CD.Reply, limit: u16) returns (ok: bool)
      requires Intact() && !main.eventPending
      modifies this`creditLast, this`chosen, tables, main, main.event
      ensures Intact() && ok
      ensures Model() == ToMain(Built(), old(Model()), packet, reply, limit)
      ensures main.counts.handlerCalls == old(main.counts.handlerCalls)
                + Bit(ReachesHandler(Built(), old(Model()), packet, reply))
    {
      hide CD.Answer;
      hide Handled;
      hide CD.Screen;
      var asked := AG.Choice(chosen, []);
      var a := AG.Arrival(packet, reply);
      var refuse := AG.Refusal(main.rows, asked, a);
      OnlyWhole(Built(), Model(), packet, reply);
      if CD.HandlerCalled(main.rows, packet, refuse) {
        HandlerEffects(CD.Opcode(packet), reply.status, limit);
      }
      chosen := AG.Arrive(main.rows, asked, a).chosen;
      ok := main.Put(packet, refuse, reply);
      CallsCounted(main.event.Length, main.rows, packet, refuse, reply);
    }

    /** Swallow the local completion of a command the controller will complete itself. */
    method DelayCommandComplete(opcode: u16)
      requires Intact()
      modifies this`delayed, main`eventLen, main`eventPending
      ensures Intact()
      ensures Model() == if opcode == RESPONSE_DATA && LocalComplete(old(Model()).main, opcode)
                         then old(Model()).(main := None, delayed := Some(opcode)) else old(Model())
    {
      if opcode != RESPONSE_DATA || !main.eventPending || main.eventLen < 6
         || main.event[0] != 0x0E || Le16(main.event[3], main.event[4]) != opcode
         || main.event[5] == CD.UNKNOWN_COMMAND {
        return;
      }
      main.eventLen, main.eventPending := 0, false;
      delayed := Some(opcode);
    }

    method PutCommand(packet: seq<byte>, reply: CD.Reply, limit: u16) returns (ok: bool)
      requires Intact()
      modifies this`creditLast, this`chosen, this`delayed, tables, main, main.event, compat, compat.event
      ensures Intact() && (ok, Model()) == SdcRouting.PutCommand(Built(), old(Model()), packet, reply, limit)
    {
      hide CD.Answer;
      hide CD.Counted;
      hide ToMain;
      hide ReachesHandler;
      hide LocalComplete;
      if delayed.Some? || commandLast || main.eventPending || compat.eventPending {
        return false;
      }
      if |packet| >= 3 {
        var opcode := CD.Opcode(packet);
        if supplemental(opcode) {
          ok := compat.Put(packet, CD.SUCCESS, reply);
          return;
        }
        var candidate := Candidate(Built(), packet);
        var before := main.counts.handlerCalls;
        ok := DispatchMain(packet, reply, limit);
        if ok && candidate && main.counts.handlerCalls != before {
          DelayCommandComplete(opcode);
        }
        return;
      }
      ok := DispatchMain(packet, reply, limit);
    }

    method PutAcl(packet: seq<byte>, answer: Taking) returns (ok: bool)
      requires Intact()
      modifies tables, tables.trackHandle, tables.outstanding, tables.creditHandle, tables.creditCount
      ensures Intact() && (ok, Model()) == SdcRouting.PutAcl(Built(), old(Model()), packet, answer)
    {
      hide FC.Owe;
      hide FC.Put;
      hide FC.AtLimit;
      hide CD.Dispatcher.Valid;
      hide CD.Dispatcher.Pending;
      hide FT.Tables.InFlight;
      hide FT.Tables.Owed;
      hide FT.Tables.Valid;
      hide Held;
      if |packet| < 4 {
        return true;
      }
      var h := FC.HandleOf(packet);
      if |packet| - 4 > ACL_MAX_PAYLOAD {
        tables.OweCredit(h);
        return true;
      }
      if enforce {
        var over := tables.AclAtLimit(h);
        if over {
          tables.OweCredit(h);
          return true;
        }
      }
      match answer
      case Again => return false;
      case Failed =>
        tables.OweCredit(h);
        return true;
      case Taken =>
        tables.AclPutTracked(h);
        return true;
    }

    /** Copy a message of the controller or of a dispatcher to the start of the caller's packet. */
    static method CopyTo(packet: array<byte>, octets: seq<byte>)
      requires |octets| <= packet.Length
      modifies packet
      ensures packet[..|octets|] == octets
    {
      for i := 0 to |octets|
        invariant packet[..i] == octets[..i]
      {
        packet[i] := octets[i];
      }
      assert octets[..|octets|] == octets;
    }

    /** A packet of the caller's, or the hold while it is empty. */
    ghost predicate Free(packet: array<byte>)
      reads this
    {
      packet !in Parts() && (packet == heldPacket ==> heldLen == 0)
    }

    /** A waiting command event, copied out whole; the main table's own may describe this layer's commands too. */
    method GetDispatchEvent(d: CD.Dispatcher, patch: bool, packet: array<byte>) returns (got: Fetched)
      requires Intact() && Free(packet) && (d == main || d == compat) && d.Pending().Some?
      modifies d`eventLen, d`eventPending, this`commandLast, packet
      ensures Intact() && tables.InFlight() == old(tables.InFlight()) && tables.Owed() == old(tables.Owed())
      ensures d != main ==> main.Pending() == old(main.Pending())
      ensures d != compat ==> compat.Pending() == old(compat.Pending())
      ensures var e := old(d.Pending()).value;
              if |e| > packet.Length then
                got == Failure && d.Pending() == old(d.Pending()) && commandLast == old(commandLast)
              else
                && got == Whole(H4.Event, |e|) && d.Pending() == None && commandLast
                && packet[..|e|] == if patch then Patched(e) else e
    {
      hide Patched;
      var out := d.Get(packet.Length);
      if out.None? {
        return Failure;
      }
      var e := if patch then Patched(out.value) else out.value;
      CopyTo(packet, e);
      commandLast := true;
      return Whole(H4.Event, |e|);
    }

    /** Where the message in `packet` ends, if its header says so and it fits. */
    static method PacketLength(kind: H4.Kind, packet: array<byte>) returns (len: Option<nat>)
      ensures len.Some? ==> len.value <= packet.Length
      ensures Cut(kind, packet[..]) == Seen(if len.Some? then Whole(kind, len.value) else Failure, packet[..])
    {
      if packet.Length < H4.HeaderLen(kind) {
        return None;
      }
      var n := H4.HeaderLen(kind) + H4.PayloadLen(kind, packet[..]);
      return if n > packet.Length then None else Some(n);
    }

    /** A controller's event on its way out: it may end the wait for a completion, and moves the links' counts. */
    method WatchEvent(e: seq<byte>)
      requires Intact()
      modifies this`delayed, tables, tables.trackHandle, tables.outstanding
      ensures Intact() && Model() == Forward(old(Model()), Packet(H4.Packet(H4.Event, e)))
    {
      hide FC.Track;
      hide Held;
      hide CD.Dispatcher.Valid;
      hide CD.Dispatcher.Pending;
      hide FT.Tables.InFlight;
      hide FT.Tables.Owed;
      if delayed.Some? && |e| >= 6 && e[0] == 0x0E && Le16(e[3], e[4]) == delayed.value {
        delayed := None;
      }
      tables.AclTrackEvent(e);
    }

    /** The controller has had its turn: whatever it gave, the turns of commands and credits are free again. */
    method Poll(packet: array<byte>, polled: Polled) returns (got: Fetched)
      requires Intact() && Free(packet)
      requires polled.Message? ==> |polled.buffer| == packet.Length
      modifies this`commandLast, this`creditLast, this`delayed, packet,
               tables, tables.trackHandle, tables.outstanding
      ensures Intact() && Read(polled) == Seen(got, packet[..])
      ensures got.Whole? ==> got.len <= packet.Length
      ensures Model() == Forward(old(Model()).(commandLast := false, creditLast := false), Read(polled))
    {
      hide FT.Tables.Valid;
      hide FC.Track;
      hide Cut;
      hide CD.Dispatcher.Valid;
      hide CD.Dispatcher.Pending;
      hide FT.Tables.InFlight;
      hide FT.Tables.Owed;
      commandLast, creditLast := false, false;
      if polled.Message? {
        CopyTo(packet, polled.buffer);
        assert packet[..] == polled.buffer;
      }
      if polled.Nothing? {
        return Nil;
      }
      if polled.Fault? || polled.source.Unlisted? {
        return Failure;
      }
      var kind := KindOf(polled.source).value;
      var len := PacketLength(kind, packet);
      if len.None? {
        return Failure;
      }
      got := Whole(kind, len.value);
      CutFits(kind, packet[..]);
      if kind == H4.Event {
        WatchEvent(packet[..len.value]);
      }
    }

    method GetPacket(packet: array<byte>, polled: Polled) returns (got: Fetched)
      requires Intact() && Free(packet)
      requires polled.Message? ==> |polled.buffer| == packet.Length
      modifies this`commandLast, this`creditLast, this`delayed, packet,
               tables, tables.trackHandle, tables.outstanding,
               main`eventLen, main`eventPending, compat`eventLen, compat`eventPending
      ensures Intact() && (got.Whole? ==> got.len <= packet.Length)
      ensures (Seen(got, packet[..]), Model()) == Get(old(Model()), packet.Length, polled)
    {
      hide FC.CreditEvent;
      hide Forward;
      hide Read;
      hide Patched;
      hide FT.Tables.InFlight;
      hide FT.Tables.Owed;
      if main.eventPending {
        got := GetDispatchEvent(main, true, packet);
        return;
      }
      if compat.eventPending {
        got := GetDispatchEvent(compat, false, packet);
        return;
      }
      if !creditLast {
        var len := tables.BuildCreditEvent(packet);
        if len > 0 {
          creditLast := true;
          return Whole(H4.Event, len);
        }
      }
      got := Poll(packet, polled);
    }

    /** The host's packet to the path of its kind. */
    method Route(kind: H4.Kind, packet: seq<byte>, reply: CD.Reply, limit: u16, answer: Taking) returns (ok: bool)
      requires Intact() && Built().cap >= 6 && HasPath(kind)
      modifies `creditLast, `chosen, `delayed, tables, main, main.event, compat, compat.event,
               tables.trackHandle, tables.outstanding, tables.creditHandle, tables.creditCount
      ensures Intact() && ok == Accepts(Built(), old(Model()), kind, packet, reply, limit, answer)
      ensures Model() == Step(Built(), old(Model()), StepOf(kind, packet, reply, limit, answer))
    {
      hide SdcRouting.PutCommand;
      hide SdcRouting.PutAcl;
      hide Intact;
      hide Model;
      match kind {
        case Command => ok := PutCommand(packet, reply, limit);
        case Acl => ok := PutAcl(packet, answer);
        case Iso => ok := true;
      }
    }

    /** The host's packet, by its kind. False is backpressure; a kind without a path is taken and dropped. */
    method PutPacket(kind: H4.Kind, packet: seq<byte>, reply: CD.Reply, limit: u16, answer: Taking) returns (ok: bool)
      requires Valid()
      modifies `history, `taken, `creditLast, `chosen, `delayed, tables, main, main.event, compat, compat.event,
               tables.trackHandle, tables.outstanding, tables.creditHandle, tables.creditCount
      ensures Valid()
      ensures ok == Accepts(Built(), old(Model()), kind, packet, reply, limit, answer)
      ensures history == old(history) + Steps(kind, packet, reply, limit, answer)
      ensures taken == old(taken) + if ok && HasPath(kind) then [H4.Packet(kind, packet)] else []
    {
      hide Step;
      hide Intact;
      hide Model;
      hide Recorded;
      hide AllDelimited;
      hide Accepts;
      hide StepOf;
      hide Held;
      hide Parts;
      HeldApart();
      assert history + [] == history && taken + [] == taken && fetched + [] == fetched;
      PathFacts(Built(), Model(), kind, packet, reply, limit, answer);
      if !HasPath(kind) {
        return true;
      }
      ghost var op := StepOf(kind, packet, reply, limit, answer);
      OneMore(Built(), history, Model(), taken, fetched, op);
      ghost var gained := TakenBy(Built(), Model(), op);
      ok := Route(kind, packet, reply, limit, answer);
      history, taken := history + [op], taken + gained;
    }

    /** The bridge asks for a packet of one kind: the hold is filled if it is empty, and keeps what it has. */
    method StartRx(kind: H4.Kind, polled: Polled) returns (ready: bool)
      requires Valid() && (polled.Message? ==> |polled.buffer| == HELD_SIZE)
      modifies this, heldPacket, tables, tables.trackHandle, tables.outstanding,
               main`eventLen, main`eventPending, compat`eventLen, compat`eventPending
      ensures Valid() && delivered == old(delivered) && taken == old(taken)
      ensures ready <==> Held() != [] && Held()[0].kind == kind
      ensures old(Held()) != [] ==>
                Held() == old(Held()) && Model() == old(Model()) && fetched == old(fetched) && history == old(history)
      ensures old(Held()) == [] ==>
                && history == old(history) + [Fetch(HELD_SIZE, polled)]
                && Model() == Get(old(Model()), HELD_SIZE, polled).1
                && Held() == GivenBy(old(Model()), Fetch(HELD_SIZE, polled))
                && fetched == old(fetched) + Held()
    {
      if heldLen == 0 {
        Fill(polled);
      }
      return heldLen != 0 && heldKind == kind;
    }

    /** One get, into the empty hold's buffer, on the record. */
    method FetchInto(polled: Polled) returns (got: Fetched)
      requires Valid() && heldLen == 0 && (polled.Message? ==> |polled.buffer| == HELD_SIZE)
      modifies `history, `fetched, `commandLast, `creditLast, `delayed,
               heldPacket, tables, tables.trackHandle, tables.outstanding,
               main`eventLen, main`eventPending, compat`eventLen, compat`eventPending
      ensures Intact() && Recorded(Built(), history, Model(), taken, fetched) && AllDelimited(fetched)
      ensures history == old(history) + [Fetch(HELD_SIZE, polled)]
      ensures Model() == Get(old(Model()), HELD_SIZE, polled).1
      ensures fetched == old(fetched) + GivenBy(old(Model()), Fetch(HELD_SIZE, polled))
      ensures got.Whole? ==> 0 < got.len <= heldPacket.Length
      ensures GivenBy(old(Model()), Fetch(HELD_SIZE, polled))
           == if got.Whole? then [H4.Packet(got.kind, heldPacket[..got.len])] else []
    {
      hide Get;
      hide GivenBy;
      hide AllDelimited;
      hide Recorded;
      hide Intact;
      hide Model;
      ghost var before := Model();
      ghost var op := Fetch(HELD_SIZE, polled);
      HeldApart();
      GivenIsDelimited(Built(), history, before, taken, fetched, polled);
      OneMore(Built(), history, before, taken, fetched, op);
      AllDelimitedConcat(fetched, GivenBy(before, op));
      assert taken + [] == taken;
      got := GetPacket(heldPacket, polled);
      history, fetched := history + [op], fetched + GivenBy(before, op);
      SeenIsGiven(got, heldPacket[..], before, polled);
    }

    /** The empty hold takes what one get gives. */
    method Fill(polled: Polled)
      requires Valid() && heldLen == 0 && (polled.Message? ==> |polled.buffer| == HELD_SIZE)
      modifies this, heldPacket, tables, tables.trackHandle, tables.outstanding,
               main`eventLen, main`eventPending, compat`eventLen, compat`eventPending
      ensures Valid() && delivered == old(delivered) && taken == old(taken)
      ensures history == old(history) + [Fetch(HELD_SIZE, polled)]
      ensures Model() == Get(old(Model()), HELD_SIZE, polled).1
      ensures Held() == GivenBy(old(Model()), Fetch(HELD_SIZE, polled))
      ensures fetched == old(fetched) + Held()
    {
      hide Get;
      hide GivenBy;
      hide AllDelimited;
      hide Recorded;
      hide Intact;
      hide Model;
      HeldApart();
      assert delivered + [] == delivered;
      var got := FetchInto(polled);
      if got.Whole? {
        heldKind, heldLen := got.kind, got.len;
      }
    }

    lemma HeldApart()
      requires Intact()
      ensures heldPacket.Length == HELD_SIZE && Built().cap >= 6 && heldPacket !in Parts()
      ensures heldPacket != main.event && heldPacket != compat.event && heldPacket !in tables.Arrays()
    {
    }

    /** Hand the held packet over to a reader with room for it. */
    method RxData(room: nat) returns (packet: Option<seq<byte>>)
      requires Valid()
      modifies `heldLen, `delivered
      ensures Valid() && Model() == old(Model())
      ensures packet.Some? <==> old(Held()) != [] && |old(Held())[0].body| <= room
      ensures packet.Some? ==>
                && packet.value != [] && packet.value == old(Held())[0].body
                && Held() == [] && delivered == old(delivered + Held())
      ensures packet.None? ==> Held() == old(Held()) && delivered == old(delivered)
    {
      hide Recorded;
      if heldLen == 0 || room < heldLen {
        return None;
      }
      packet := Some(heldPacket[..heldLen]);
      delivered := delivered + Held();
      heldLen := 0;
      assert delivered + [] == delivered;
    }

    /** What the hold has once it has been asked: what it had, or what one get gives. */
    ghost function Asked(polled: Polled): seq<H4.Packet>
      reads `commandLast, `creditLast, `delayed, `chosen, `heldLen, `heldKind, heldPacket
      reads main, main.event, compat, compat.event, tables
      reads tables.trackHandle, tables.outstanding, tables.creditHandle, tables.creditCount
      requires Intact()
    {
      if Held() != [] then Held() else GivenBy(Model(), Fetch(HELD_SIZE, polled))
    }

    /** A whole read by kind: fill the hold if it is empty, hand it over if it is of the kind and fits. */
    method ReadKind(kind: H4.Kind, polled: Polled, room: nat) returns (packet: Option<seq<byte>>)
      requires Valid() && (polled.Message? ==> |polled.buffer| == HELD_SIZE)
      modifies this, heldPacket, tables, tables.trackHandle, tables.outstanding,
               main`eventLen, main`eventPending, compat`eventLen, compat`eventPending
      ensures Valid() && taken == old(taken)
      ensures history == old(history) + if old(Held()) == [] then [Fetch(HELD_SIZE, polled)] else []
      ensures var asked := old(Asked(polled));
              && (packet.Some? <==> asked != [] && asked[0].kind == kind && |asked[0].body| <= room)
              && (packet.Some? ==> packet.value != [] && asked == [H4.Packet(kind, packet.value)] && Held() == [])
              && (packet.None? ==> Held() == asked)
      ensures packet.Some? ==> H4.SelfDelimiting(H4.Packet(kind, packet.value))
      ensures delivered == old(delivered) + if packet.Some? then [H4.Packet(kind, packet.value)] else []
    {
      hide Intact;
      hide Model;
      hide Get;
      hide Recorded;
      hide GivenBy;
      assert delivered + [] == delivered && history + [] == history;
      var ready := StartRx(kind, polled);
      if !ready {
        return None;
      }
      HeldIsDelimited();
      packet := RxData(room);
    }

    /**
     What holds over runs holds of the layer as it is kept: one command credit, one response
     per accepted command and in order, and one advertising family between resets.
     */
    lemma HistoryIsOrderly()
      requires Valid() && ValidConfig(Built())
      ensures OneCredit(Model())
      ensures var l := SdcRuns.LogRun(Built(), SdcRuns.Log([], []), Boot(false), history);
              l.commands == l.responses + Outstanding(Model()) && |Outstanding(Model())| <= 1
      ensures AG.Exclusive(SdcRuns.Calls(Built(), Boot(false), history))
    {
      hide Get;
      hide AllDelimited;
      SdcRuns.OneCommandCredit(Built(), false, history);
      SdcRuns.ResponsesInOrder(Built(), history);
      SdcRuns.FamiliesAreExclusiveOverRuns(Built(), false, history);
    }

    /**
     Bounded starvation of the layer as it is kept: wherever it has been used, four gets in
     its history cannot all miss the controller's queue, and without a reset three cannot.
     */
    lemma HistoryIsNotStarved(from: nat, end: nat)
      requires Valid() && ValidConfig(Built()) && from <= end <= |history|
      requires Bounded(Run(Built(), Boot(false), history[..from]))
      requires SdcRuns.NeverPolls(Built(), Run(Built(), Boot(false), history[..from]), history[from..end])
      ensures SdcRuns.Gets(history[from..end]) <= 3
      ensures SdcRuns.ResetFree(Built(), Run(Built(), Boot(false), history[..from]), history[from..end]) ==>
                SdcRuns.Gets(history[from..end]) <= 2
    {
      hide AllDelimited;
      assert forall op :: op in history[from..end] ==> op in history;
      SdcRuns.QueueIsNotStarved(Built(), false, history[..from], history[from..end]);
    }

    lemma HeldIsDelimited()
      requires Valid()
      ensures |Held()| <= 1
      ensures Held() != [] ==> H4.SelfDelimiting(Held()[0])
    {
      hide Recorded;
      AllDelimitedConcat(delivered, Held());
    }
  }

  lemma SeenIsGiven(got: Fetched, buffer: seq<byte>, s: Sdc, polled: Polled)
    requires |s.owed.entries| <= FC.HANDLES && Seen(got, buffer) == Get(s, HELD_SIZE, polled).0
    requires got.Whole? ==> got.len <= |buffer|
    requires AllDelimited(GivenBy(s, Fetch(HELD_SIZE, polled)))
    ensures GivenBy(s, Fetch(HELD_SIZE, polled))
         == if got.Whole? then [H4.Packet(got.kind, buffer[..got.len])] else []
    ensures got.Whole? ==> got.len > 0
  {
    hide Get;
    if got.Whole? {
      assert H4.Packet(got.kind, buffer[..got.len]) in GivenBy(s, Fetch(HELD_SIZE, polled));
    }
  }

  predicate AllDelimited(ps: seq<H4.Packet>) {
    forall p :: p in ps ==> H4.SelfDelimiting(p) && 0 < |p.body| <= HELD_SIZE
  }

  lemma AllDelimitedConcat(a: seq<H4.Packet>, b: seq<H4.Packet>)
    ensures AllDelimited(a + b) <==> AllDelimited(a) && AllDelimited(b)
  {
    assert forall p :: p in a ==> p in a + b;
    assert forall p :: p in b ==> p in a + b;
  }

  predicate HasPath(kind: H4.Kind) {
    kind == H4.Command || kind == H4.Acl || kind == H4.Iso
  }

  /** The routing step a host packet is. */
  function StepOf(kind: H4.Kind, packet: seq<byte>, reply: CD.Reply, limit: u16, answer: Taking): Op
    requires HasPath(kind)
  {
    match kind
    case Command => Op.Command(packet, reply, limit)
    case Acl => AclData(packet, answer)
    case Iso => IsoData(packet)
  }

  function Steps(kind: H4.Kind, packet: seq<byte>, reply: CD.Reply, limit: u16, answer: Taking): seq<Op> {
    if HasPath(kind) then [StepOf(kind, packet, reply, limit, answer)] else []
  }

  function Accepts(cfg: Config, s: Sdc, kind: H4.Kind, packet: seq<byte>,
                   reply: CD.Reply, limit: u16, answer: Taking): bool
    requires cfg.cap >= 6
  {
    match kind
    case Command => SdcRouting.PutCommand(cfg, s, packet, reply, limit).0
    case Acl => SdcRouting.PutAcl(cfg, s, packet, answer).0
    case _ => true
  }

  /** A host packet's step takes it exactly when it is accepted, and gives nothing. */
  lemma PathFacts(cfg: Config, s: Sdc, kind: H4.Kind, packet: seq<byte>, reply: CD.Reply, limit: u16, answer: Taking)
    requires cfg.cap >= 6 && |s.owed.entries| <= FC.HANDLES
    ensures !HasPath(kind) ==> Accepts(cfg, s, kind, packet, reply, limit, answer)
    ensures HasPath(kind) ==>
              var op := StepOf(kind, packet, reply, limit, answer);
              && GivenBy(s, op) == [] && SdcRuns.Roomy(op)
              && TakenBy(cfg, s, op)
                 == if Accepts(cfg, s, kind, packet, reply, limit, answer) then [H4.Packet(kind, packet)] else []
  {
    hide SdcRouting.PutCommand;
    hide SdcRouting.PutAcl;
  }

  /** The state is the run of the history from a fresh layer, and the logs are what that run took and gave. */
  ghost predicate Recorded(cfg: Config, history: seq<Op>, s: Sdc, taken: seq<H4.Packet>, fetched: seq<H4.Packet>) {
    && cfg.cap >= 6
    && s == Run(cfg, Boot(false), history)
    && taken == TakenOver(cfg, Boot(false), history)
    && fetched == GivenOver(cfg, Boot(false), history)
    && AllRoomy(history)
  }

  /** Every get had the hold to fill. */
  ghost predicate AllRoomy(history: seq<Op>) {
    forall op :: op in history ==> SdcRuns.Roomy(op)
  }

  /** The packets that the steps of a fresh layer took from the host. */
  function TakenInAll(cfg: Config, history: seq<Op>): seq<H4.Packet> {
    if cfg.cap >= 6 then TakenOver(cfg, Boot(false), history) else []
  }

  /** The packets that they gave for it. */
  function GivenInAll(cfg: Config, history: seq<Op>): seq<H4.Packet> {
    if cfg.cap >= 6 then GivenOver(cfg, Boot(false), history) else []
  }

  lemma OneMore(cfg: Config, history: seq<Op>, s: Sdc, taken: seq<H4.Packet>, fetched: seq<H4.Packet>, op: Op)
    requires Recorded(cfg, history, s, taken, fetched)
    requires SdcRuns.Roomy(op)
    ensures cfg.cap >= 6 && Bounded(s)
    ensures Recorded(cfg, history + [op], Step(cfg, s, op),
                     taken + TakenBy(cfg, s, op), fetched + GivenBy(s, op))
  {
    hide Step;
    RunSnoc(cfg, Boot(false), history, op);
  }

  /** What a get gives delimits itself and fits the hold. */
  lemma GivenIsDelimited(cfg: Config, history: seq<Op>, s: Sdc, taken: seq<H4.Packet>, fetched: seq<H4.Packet>,
                         polled: Polled)
    requires Recorded(cfg, history, s, taken, fetched) && (polled.Message? ==> |polled.buffer| == HELD_SIZE)
    ensures Bounded(s)
    ensures AllDelimited(GivenBy(s, Fetch(HELD_SIZE, polled)))
  {
    hide Get;
    SdcRuns.RunIsShaped(cfg, Boot(false), history);
    SdcRuns.OutputIsSelfDelimiting(cfg, s, HELD_SIZE, polled);
  }

  lemma CutFits(kind: H4.Kind, buffer: seq<byte>)
    ensures Cut(kind, buffer).Packet? ==>
              Cut(kind, buffer).packet.kind == kind && Cut(kind, buffer).packet.body <= buffer
    ensures Cut(kind, buffer) != Empty
  {
  }

  /** How a get reports itself to a caller holding the packet buffer. */
  datatype Fetched = Whole(kind: H4.Kind, len: nat) | Nil | Failure

  function Seen(got: Fetched, buffer: seq<byte>): Got {
    match got
    case Whole(kind, len) => if len <= |buffer| then Packet(H4.Packet(kind, buffer[..len])) else Error
    case Nil => Empty
    case Failure => Error
  }

  lemma CallsCounted(cap: nat, rows: seq<CD.Row>, packet: seq<byte>, refuse: byte, reply: CD.Reply)
    requires cap >= 6
    ensures forall c :: CD.Counted(c, cap, rows, packet, refuse, reply).handlerCalls
                     == c.handlerCalls + Bit(CD.HandlerCalled(rows, packet, refuse))
  {
  }
}
