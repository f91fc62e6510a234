/**
 The bridge between the host's H:4 port and the routing layer: one packet retained each
 way, the host's in the very buffer it was parsed into. The logs say what became of every
 packet; the invariant says that they are complete, in order and unaltered, from the reads
 of the port to the steps of the routing layer, and back to the writes of the port.
 */
module Bridge {
  import opened Octets
  import opened H4
  import opened BridgeLogs
  import H4Parser
  import CD = CommandDispatch
  import LR = LocalReplies
  import SL = SdcLayer
  import SR = SdcRouting
  import SS = StartupSync
  import TP = Transport

  const BURST := 16
  const SYNC_PASSES := 64
  const IDLE_PASSES := 4
  const FROM_CONTROLLER: seq<Kind> := [Event, Acl, Iso, Sco]
  const FROM_HOST: seq<Kind> := [Command, Acl, Sco, Event, Iso]

  predicate IndicatorValid(b: byte) {
    1 <= b <= 5
  }

  /** The octets a packet can start with. */
  lemma IndicatorsAreKinds(b: byte)
    ensures IndicatorValid(b) <==> b in {0x01, 0x02, 0x03, 0x04, 0x05}
    ensures IndicatorValid(b) <==> KindOf(b).Some?
  {
  }

  /** A read that looks like the start of a packet. */
  predicate StartsPacket(got: TP.PortRead) {
    got.Octets? && got.data != [] && IndicatorValid(got.data[0])
  }

  lemma EveryKindIsAsked(kind: Kind)
    ensures exists k :: 0 <= k < |FROM_HOST| && FROM_HOST[k] == kind
  {
    var k := match kind case Command => 0 case Acl => 1 case Sco => 2 case Event => 3 case Iso => 4;
    assert FROM_HOST[k] == kind;
  }

  /** An array that is none of the routing layer's. */
  ghost predicate Free(a: array<byte>, layer: SL.Layer) {
    a != layer.main.event && a != layer.compat.event && a != layer.heldPacket && a !in layer.tables.Arrays()
  }

  class Bridge {
    const host: TP.Transport
    const sdc: SL.Layer
    const controllerPacket: array<byte>
    const core: byte
    const world: World
    var hostPacketKind: Kind
    var hostPacketLen: nat
    var hostPacketPending: bool
    var controllerPacketKind: Kind
    var controllerPacketLen: nat
    var controllerPacketPending: bool
    var startupSync: bool
    var syncActive: bool
    var matched: nat
    var processAgain: bool
    var hostPacketRetryCount: nat
    var invalidHostPacketCount: nat
    var unsendableControllerPacketCount: nat
    var linkIdleOctets: nat
    var linkIdlePasses: nat
    /** How often the outside has been called: the port read and written, the layer stepped, a command answered here. */
    var portReads: nat
    var portWrites: nat
    var steps: nat
    var locals: nat

    ghost var done: seq<Done>
    ghost var queued: seq<Queued>
    ghost var out: seq<Out>
    /** Where in `out` and `writes` the transport's current send epoch begins, and what every write offered. */
    ghost var epoch: nat
    ghost var saidFrom: nat
    ghost var writes: seq<seq<byte>>
    /** The read of the port at which the current receive epoch begins, and what the transport had received by then. */
    ghost var heardFrom: nat
    ghost var base: seq<byte>
    /** Octets scanned since startup synchronization began, and those of them before the first Reset frame. */
    ghost var noise: seq<byte>
    ghost var lead: seq<byte>
    ghost var flushedBefore: nat

    ghost predicate Valid()
      reads `hostPacketKind, `hostPacketLen, `hostPacketPending, `done, `locals
      reads `controllerPacketKind, `controllerPacketLen, `controllerPacketPending, `queued, `out, `epoch
      reads `startupSync, `syncActive, `matched, `noise, `flushedBefore
      reads `lead, `base, `heardFrom, `portReads, `portWrites, `saidFrom, `writes, `steps
      reads controllerPacket, host, host.parser, host.parser.buffer, host.rxChunk, host.txStream
      reads sdc, sdc.main, sdc.main.event, sdc.compat, sdc.compat.event, sdc.heldPacket, sdc.tables
      reads sdc.tables.trackHandle, sdc.tables.outstanding, sdc.tables.creditHandle, sdc.tables.creditCount
    {
      && Apart() && ValidWorld(world) && host.Valid() && sdc.Valid()
      && HostSide() && LocalSide() && ControllerSide() && SyncSide()
      && LeadSide() && HearSide() && SaySide() && StepSide()
    }

    /** The two sides and the slot between them share no buffer. */
    ghost predicate Apart() {
      && FreeOfSdc(host.parser.buffer) && FreeOfSdc(host.rxChunk) && FreeOfSdc(host.txStream)
      && FreeOfSdc(controllerPacket)
      && controllerPacket != host.parser.buffer && controllerPacket != host.rxChunk && controllerPacket != host.txStream
    }

    ghost predicate FreeOfSdc(a: array<byte>) {
      Free(a, sdc)
    }

    /** The packet waiting for the controller: it has stayed where the parser put it. */
    ghost function Retained(): seq<Packet>
      reads `hostPacketKind, `hostPacketLen, `hostPacketPending, host.parser.buffer
    {
      if hostPacketPending && hostPacketLen <= host.parser.buffer.Length
      then [Packet(hostPacketKind, host.parser.buffer[..hostPacketLen])] else []
    }

    /**
     Every packet taken from the transport has one outcome, the one due to it, in order, or
     is retained unaltered; and those accepted are what the routing layer has taken.
     */
    ghost predicate HostSide()
      reads `hostPacketKind, `hostPacketLen, `hostPacketPending, `done, host.parser.buffer, host`fates, sdc`taken
    {
      && hostPacketLen <= host.parser.buffer.Length
      && TP.TakenOf(host.fates) == DonePackets(done) + Retained()
      && AcceptedOf(done) == sdc.taken
      && AllDue(core, done)
    }

    /** Every command answered here had one reply put in the slot, in order. */
    ghost predicate LocalSide()
      reads `done, `queued, `locals
    {
      && LocalsOf(queued) == Replies(world, core, controllerPacket.Length, AnsweredOf(done))
      && locals == |AnsweredOf(done)|
    }

    /** The packet waiting for the host. */
    ghost function Waiting(): seq<Packet>
      reads `controllerPacketKind, `controllerPacketLen, `controllerPacketPending, controllerPacket
    {
      if controllerPacketPending && controllerPacketLen <= controllerPacket.Length
      then [Packet(controllerPacketKind, controllerPacket[..controllerPacketLen])] else []
    }

    /**
     Every controller packet read from the hold was queued, in order, adapted and no more;
     every queued packet was sent, could never be sent, was dropped at close, or waits;
     what was sent is what the transport accepted.
     */
    ghost predicate ControllerSide()
      reads `controllerPacketKind, `controllerPacketLen, `controllerPacketPending, controllerPacket
      reads `queued, `out, `epoch, host`accepted, sdc`delivered
    {
      && controllerPacket.Length >= 6 && controllerPacketLen <= controllerPacket.Length
      && (controllerPacketPending ==> controllerPacketLen > 0)
      && QueuedPackets(queued) == OutPackets(out) + Waiting()
      && Originals(queued) == sdc.delivered
      && AllReady(core, queued) && AllFit(out)
      && epoch <= |out| && host.accepted == SentOf(out[epoch..])
    }

    /** While startup synchronization scans: the port is closed, the index exact, the count the octets scanned. */
    ghost predicate SyncSide()
      reads `startupSync, `syncActive, `matched, `noise, `flushedBefore
      reads host`open, host`flushedOctetCount, host.parser`mode
    {
      syncActive ==>
        && startupSync && !host.open && host.parser.mode == H4Parser.TypeMode && SS.Longest(noise, matched)
        && host.flushedOctetCount == flushedBefore + |noise|
    }

    /** What came in before what the transport received: nothing, or the octets before the first Reset frame. */
    ghost predicate LeadSide()
      reads `syncActive, `noise, `lead, host`fed
    {
      !syncActive && lead != [] ==> SS.FirstReset(noise) && lead + SS.RESET == noise && SS.RESET <= host.fed
    }

    /** What has come in over the port: what is scanned, or what came before the Reset frame and then was received. */
    ghost function Line(): seq<byte>
      reads `syncActive, `noise, `lead, host`fed, host`rxChunkLen, host`rxChunkOffset, host.rxChunk
    {
      if syncActive then noise else lead + host.Received()
    }

    /** Everything the port gave has come in, in order, once. */
    ghost predicate HearSide()
      reads `syncActive, `noise, `lead, `base, `heardFrom, `portReads
      reads host`fed, host`rxChunkLen, host`rxChunkOffset, host.rxChunk
    {
      heardFrom <= portReads && Line() == base + Heard(world.rx, heardFrom, portReads)
    }

    /** The octets written are those the port took. */
    ghost predicate SaySide()
      reads `portWrites, `writes, `saidFrom, host`emitted
    {
      && saidFrom <= |writes| && portWrites == |writes|
      && host.emitted == Said(world.tx, writes, saidFrom)
    }

    /** Every step of the routing layer was answered by the outside. */
    ghost predicate StepSide()
      reads `steps, sdc`history
    {
      steps == |sdc.history| && AllAnsweredBy(world, sdc.history)
    }

    /** The record as it is now. */
    ghost function Record(): Snapshot
      reads `done, `queued, `out, `writes, sdc`history, `epoch, `saidFrom, `heardFrom, `base, `portReads
      reads `syncActive, `lead, `noise, host`start, host`fed, host`fates, host`rejectedMark
    {
      Snapshot(done, queued, out, writes, sdc.history, epoch, saidFrom, heardFrom, base, portReads,
               syncActive, lead, noise, host.start, host.fed, host.fates, host.rejectedMark)
    }

    constructor (transport: TP.Transport, layer: SL.Layer, slot: array<byte>, version: byte, outside: World)
      requires transport.Valid() && layer.Valid() && slot.Length >= 6 && ValidWorld(outside)
      requires !transport.open && transport.fates == [] && transport.Received() == []
      requires transport.accepted == [] && transport.emitted == []
      requires layer.history == [] && layer.taken == [] && layer.delivered == []
      requires Free(transport.parser.buffer, layer) && Free(transport.rxChunk, layer)
      requires Free(transport.txStream, layer) && Free(slot, layer)
      requires slot != transport.parser.buffer && slot != transport.rxChunk && slot != transport.txStream
      ensures Valid() && host == transport && sdc == layer && controllerPacket == slot
      ensures core == version && world == outside
      ensures done == [] && queued == [] && out == [] && writes == [] && portReads == 0 && !syncActive
    {
      hide TP.Transport.Valid;
      hide SL.Layer.Valid;
      hide Valid;
      host, sdc, controllerPacket, core, world := transport, layer, slot, version, outside;
      hostPacketKind, hostPacketLen, hostPacketPending := Command, 0, false;
      controllerPacketKind, controllerPacketLen, controllerPacketPending := Event, 0, false;
      startupSync, syncActive, matched, processAgain := false, false, 0, false;
      hostPacketRetryCount, invalidHostPacketCount, unsendableControllerPacketCount := 0, 0, 0;
      linkIdleOctets, linkIdlePasses, portReads, portWrites, steps, locals := 0, 0, 0, 0, 0, 0;
      done, queued, out, epoch, writes, saidFrom := [], [], [], 0, [], 0;
      noise, lead, flushedBefore, heardFrom, base := [], [], 0, 0, [];
      new;
      NothingYet();
    }

    lemma NothingYet()
      requires Apart() && ValidWorld(world) && host.Valid() && sdc.Valid() && controllerPacket.Length >= 6
      requires !hostPacketPending && hostPacketLen == 0 && !controllerPacketPending && controllerPacketLen == 0
      requires done == [] && queued == [] && out == [] && epoch == locals == 0 && !syncActive
      requires writes == [] && saidFrom == portWrites == 0 && heardFrom == portReads == 0 && base == lead == []
      requires host.fates == [] && host.Received() == [] && host.accepted == [] && host.emitted == []
      requires steps == 0 && sdc.history == [] && sdc.taken == [] && sdc.delivered == []
      ensures Valid()
    {
      hide TP.Transport.Valid;
      hide SL.Layer.Valid;
    }

    // ---- Into the slot for the host ----

    /** Fill the empty slot with a local reply. */
    method Fill(octets: seq<byte>)
      requires ControllerSide() && !controllerPacketPending && 0 < |octets| <= controllerPacket.Length
      requires SelfDelimiting(Packet(Event, octets))
      modifies `controllerPacketKind, `controllerPacketLen, `controllerPacketPending, `queued, controllerPacket
      ensures ControllerSide() && controllerPacketPending && queued == old(queued) + [Local(Packet(Event, octets))]
    {
      hide OutPackets;
      hide QueuedPackets;
      hide Originals;
      hide SentOf;
      hide AllReady;
      hide AllFit;
      SL.Layer.CopyTo(controllerPacket, octets);
      QueuedSnoc(core, queued, Local(Packet(Event, octets)));
      queued := queued + [Local(Packet(Event, octets))];
      controllerPacketKind, controllerPacketLen, controllerPacketPending := Event, |octets|, true;
      assert QueuedPackets(old(queued)) == OutPackets(out) + [] == OutPackets(out);
    }

    // ---- From the host ----

    /** A command answered here, if the slot is free. */
    method AnswerLocally(packet: seq<byte>) returns (taken: bool)
      requires ControllerSide() && LR.IsLocal(core, packet) && ValidWorld(world)
      modifies `controllerPacketKind, `controllerPacketLen, `controllerPacketPending, `queued,
               `hostPacketRetryCount, `locals, controllerPacket
      ensures ControllerSide() && taken == !old(controllerPacketPending)
      ensures locals == old(locals) + if taken then 1 else 0
      ensures queued == old(queued) + if taken
              then [Local(ReplyTo(world, core, controllerPacket.Length, old(locals), Packet(Command, packet)))] else []
      ensures old(controllerPacketPending) ==> controllerPacketPending && Waiting() == old(Waiting())
    {
      hide LR.LocalReply;
      hide LR.IsLocal;
      hide ControllerSide;
      hide ReplyTo;
      hide SelfDelimiting;
      ReplyIsReady(packet);
      assert queued + [] == queued;
      if controllerPacketPending {
        hostPacketRetryCount := hostPacketRetryCount + 1;
        return false;
      }
      Fill(LR.LocalReply(core, controllerPacket.Length, packet, world.snapshot(locals), world.vendor(locals)));
      locals := locals + 1;
      return true;
    }

    lemma ReplyIsReady(packet: seq<byte>)
      requires ControllerSide() && LR.IsLocal(core, packet) && ValidWorld(world)
      ensures controllerPacket.Length >= 6 && |world.vendor(locals).ret| <= CD.MAX_RETURN
      ensures var (seen, answer) := (world.snapshot(locals), world.vendor(locals));
              var e := LR.LocalReply(core, controllerPacket.Length, packet, seen, answer);
              && 0 < |e| <= controllerPacket.Length && SelfDelimiting(Packet(Event, e))
              && ReplyTo(world, core, controllerPacket.Length, locals, Packet(Command, packet)) == Packet(Event, e)
    {
      hide LR.LocalReply;
      hide LR.IsLocal;
      hide QueuedPackets;
      hide OutPackets;
      hide AllReady;
      LR.LocalReplyIsShaped(core, controllerPacket.Length, packet, world.snapshot(locals), world.vendor(locals));
    }

    /** The answer the routing layer's next step would get for the packet. */
    ghost predicate Accepts(p: Packet)
      reads `steps, sdc, sdc.main, sdc.main.event, sdc.compat, sdc.compat.event, sdc.heldPacket, sdc.tables
      reads sdc.tables.trackHandle, sdc.tables.outstanding, sdc.tables.creditHandle, sdc.tables.creditCount
    {
      && sdc.Intact()
      && SL.Accepts(sdc.Built(), sdc.Model(), p.kind, p.body,
                    world.reply(steps), world.limit(steps), world.taking(steps))
    }

    /** A packet the controller has to take, in one step of the routing layer. */
    method OfferController(kind: Kind, packet: seq<byte>) returns (taken: bool)
      requires sdc.Valid() && StepSide() && HostMaySend(kind)
      modifies `steps, `hostPacketRetryCount,
               sdc`history, sdc`taken, sdc`creditLast, sdc`chosen, sdc`delayed,
               sdc.tables, sdc.main, sdc.main.event, sdc.compat, sdc.compat.event,
               sdc.tables.trackHandle, sdc.tables.outstanding, sdc.tables.creditHandle, sdc.tables.creditCount
      ensures sdc.Valid() && StepSide() && taken == old(Accepts(Packet(kind, packet)))
      ensures sdc.history == old(sdc.history) + SL.Steps(kind, packet, world.reply(old(steps)), world.limit(old(steps)),
                                                         world.taking(old(steps)))
      ensures sdc.taken == old(sdc.taken) + if taken then [Packet(kind, packet)] else []
    {
      hide SL.Layer.Valid;
      hide SL.Layer.Model;
      hide SL.Accepts;
      hide AllAnsweredBy;
      LayerIsIntact();
      var now := steps;
      AnsweredMore(world, sdc.history, SL.StepOf(kind, packet, world.reply(now), world.limit(now), world.taking(now)));
      steps := steps + 1;
      taken := sdc.PutPacket(kind, packet, world.reply(now), world.limit(now), world.taking(now));
      if !taken {
        hostPacketRetryCount := hostPacketRetryCount + 1;
      }
    }

    lemma LayerIsIntact()
      requires sdc.Valid()
      ensures sdc.Intact()
    {
    }

    /** Whether the packet would get its outcome now, or be offered again. */
    ghost predicate Takeable(p: Packet)
      reads `steps, `controllerPacketPending
      reads sdc, sdc.main, sdc.main.event, sdc.compat, sdc.compat.event, sdc.heldPacket, sdc.tables
      reads sdc.tables.trackHandle, sdc.tables.outstanding, sdc.tables.creditHandle, sdc.tables.creditCount
    {
      if Refused(p) then true
      else if AnsweredHere(core, p) then !controllerPacketPending
      else Accepts(p)
    }

    /**
     One host packet, once: rejected for its kind, answered here, or taken by the controller.
     None is backpressure, and the packet is offered again.
     */
    method PutHostPacket(kind: Kind, packet: seq<byte>) returns (outcome: Option<Done>)
      requires sdc.Valid() && ControllerSide() && StepSide() && FreeOfSdc(controllerPacket) && ValidWorld(world)
      modifies `steps, `locals, `hostPacketRetryCount, `invalidHostPacketCount,
               `controllerPacketKind, `controllerPacketLen, `controllerPacketPending, `queued, controllerPacket,
               sdc`history, sdc`taken, sdc`creditLast, sdc`chosen, sdc`delayed,
               sdc.tables, sdc.main, sdc.main.event, sdc.compat, sdc.compat.event,
               sdc.tables.trackHandle, sdc.tables.outstanding, sdc.tables.creditHandle, sdc.tables.creditCount
      ensures sdc.Valid() && ControllerSide() && StepSide() && old(sdc.history) <= sdc.history
      ensures |sdc.history| == |old(sdc.history)| + Tries(core, Packet(kind, packet))
      ensures outcome.Some? <==> old(Takeable(Packet(kind, packet)))
      ensures outcome.Some? ==> outcome.value == Resolved(core, Packet(kind, packet))
      ensures sdc.taken == old(sdc.taken)
                + if outcome.Some? && outcome.value.Accepted? then [Packet(kind, packet)] else []
      ensures var answered := outcome.Some? && outcome.value.Answered?;
              && locals == old(locals) + (if answered then 1 else 0)
              && queued == old(queued) + if answered
                 then [Local(ReplyTo(world, core, controllerPacket.Length, old(locals), Packet(kind, packet)))] else []
      ensures old(controllerPacketPending) ==> controllerPacketPending && Waiting() == old(Waiting())
    {
      hide ControllerSide;
      hide StepSide;
      hide SL.Layer.Valid;
      hide Accepts;
      hide ReplyTo;
      hide LR.IsLocal;
      assert queued + [] == queued && sdc.taken + [] == sdc.taken;
      if !HostMaySend(kind) || packet == [] {
        invalidHostPacketCount := invalidHostPacketCount + 1;
        return Some(Rejected(Packet(kind, packet)));
      }
      if kind == Command && LR.IsLocal(core, packet) {
        var answered := AnswerLocally(packet);
        return if answered then Some(Answered(Packet(kind, packet))) else None;
      }
      var taken := OfferController(kind, packet);
      return if taken then Some(Accepted(Packet(kind, packet))) else None;
    }

    /** The retained packet has its outcome: the buffer is the parser's again. */
    method Finish(ghost outcome: Done)
      requires hostPacketPending && hostPacketLen <= host.parser.buffer.Length
      requires Retained() == [outcome.packet] && TP.TakenOf(host.fates) == DonePackets(done) + Retained()
      requires AllDue(core, done) && Due(core, outcome)
      requires sdc.taken == AcceptedOf(done) + if outcome.Accepted? then [outcome.packet] else []
      requires locals == |AnsweredOf(done)| + if outcome.Answered? then 1 else 0
      requires LocalsOf(queued) == Replies(world, core, controllerPacket.Length, AnsweredOf(done))
                 + if outcome.Answered?
                   then [ReplyTo(world, core, controllerPacket.Length, |AnsweredOf(done)|, outcome.packet)] else []
      modifies `hostPacketPending, `hostPacketLen, `done
      ensures HostSide() && LocalSide() && !hostPacketPending && done == old(done) + [outcome]
    {
      hide TP.TakenOf;
      hide DonePackets;
      hide AcceptedOf;
      hide AnsweredOf;
      hide LocalsOf;
      hide Replies;
      hide ReplyTo;
      hide Due;
      hide AllDue;
      DoneSnoc(core, done, outcome);
      RepliesSnoc(world, core, controllerPacket.Length, AnsweredOf(done), outcome.packet);
      NoneMore(done);
      done := done + [outcome];
      hostPacketPending, hostPacketLen := false, 0;
      assert DonePackets(done) + [] == DonePackets(done);
    }

    lemma NoneMore(ds: seq<Done>)
      ensures AcceptedOf(ds) + [] == AcceptedOf(ds) && AnsweredOf(ds) + [] == AnsweredOf(ds)
      ensures var rs := Replies(world, core, controllerPacket.Length, AnsweredOf(ds)); rs + [] == rs
    {
    }

    /** `p` has its outcome, the one for such a packet, or is retained for the next offer. */
    ghost predicate Met(p: Packet, before: seq<Done>, released: bool)
      reads `hostPacketKind, `hostPacketLen, `hostPacketPending, `done, host.parser.buffer
    {
      if released then !hostPacketPending && done == before + [Resolved(core, p)]
      else hostPacketPending && done == before && Retained() == [p]
    }

    /** Offer the retained packet, once and as it is; it is released exactly when it has its outcome. */
    method OfferRetained()
      requires sdc.Valid() && ControllerSide() && StepSide() && FreeOfSdc(controllerPacket) && ValidWorld(world)
      requires FreeOfSdc(host.parser.buffer) && controllerPacket != host.parser.buffer
      requires HostSide() && LocalSide() && hostPacketPending
      modifies `hostPacketPending, `hostPacketLen, `done,
               `steps, `locals, `hostPacketRetryCount, `invalidHostPacketCount,
               `controllerPacketKind, `controllerPacketLen, `controllerPacketPending, `queued, controllerPacket,
               sdc`history, sdc`taken, sdc`creditLast, sdc`chosen, sdc`delayed,
               sdc.tables, sdc.main, sdc.main.event, sdc.compat, sdc.compat.event,
               sdc.tables.trackHandle, sdc.tables.outstanding, sdc.tables.creditHandle, sdc.tables.creditCount
      ensures sdc.Valid() && ControllerSide() && StepSide() && HostSide() && LocalSide()
      ensures old(sdc.history) <= sdc.history && old(queued) <= queued
      ensures |sdc.history| == |old(sdc.history)| + Tries(core, old(Retained())[0])
      ensures Met(old(Retained())[0], old(done), old(Takeable(Retained()[0])))
      ensures old(controllerPacketPending) ==> controllerPacketPending && Waiting() == old(Waiting())
    {
      hide ControllerSide;
      hide StepSide;
      hide SL.Layer.Valid;
      hide Takeable;
      hide TP.TakenOf;
      hide DonePackets;
      hide AcceptedOf;
      hide AnsweredOf;
      hide LocalsOf;
      hide Replies;
      hide ReplyTo;
      hide Resolved;
      hide AllDue;
      var packet := host.parser.buffer[..hostPacketLen];
      NoneMore(done);
      var outcome := PutHostPacket(hostPacketKind, packet);
      if outcome.Some? {
        LocalsMore(old(queued), queued);
        Finish(outcome.value);
      } else {
        assert queued == old(queued);
      }
    }

    lemma LocalsMore(before: seq<Queued>, after: seq<Queued>)
      ensures before + [] == before && LocalsOf(before) + [] == LocalsOf(before)
      ensures |after| > 0 && before == after[..|after| - 1] && after[|after| - 1].Local? ==>
                LocalsOf(after) == LocalsOf(before) + [after[|after| - 1].packet]
    {
    }

    /** Ask the transport for a packet of one kind; it is read into the parser's own buffer, where it already is. */
    method ReadFromHost(kind: Kind)
      requires host.Valid() && HostSide() && HearSide() && LeadSide() && SyncSide()
      requires !hostPacketPending && ValidWorld(world)
      modifies `portReads, `hostPacketKind, `hostPacketLen, `hostPacketPending,
               host`fed, host`rxChunkLen, host`rxChunkOffset, host`rxOctetCount, host`rxErrorCount,
               host`rejectedMark, host`suspectClearCount, host`droppedPacketCount, host`rxPacketCount, host`fates,
               host`rxSelect, host`suspectPacketCount, host.rxChunk, host.parser, host.parser.buffer
      ensures host.Valid() && HostSide() && HearSide() && LeadSide() && SyncSide() && Follows(old(Record()), Record())
      ensures hostPacketPending ==> hostPacketKind == kind && |Retained()| == 1 && Moved(old(Record()), Record())
      ensures old(host.open && host.Waits()) ==> Arrived(old(host.parser.Pending())[0], kind)
    {
      hide Follows;
      hide Moved;
      hide Record;
      hide TP.TakenOf;
      hide TP.Transport.Valid;
      hide DonePackets;
      hide AcceptedOf;
      hide AllDue;
      hide HearSide;
      hide LeadSide;
      hide SyncSide;
      var len := ReadOctets(kind);
      hostPacketKind, hostPacketLen, hostPacketPending := kind, len, len > 0;
      assert DonePackets(done) + [] == DonePackets(done);
    }

    /** A packet that waited in the transport is retained now if it is of the kind, and else still waits. */
    ghost predicate Arrived(p: Packet, kind: Kind)
      reads `hostPacketKind, `hostPacketLen, `hostPacketPending, host`rejectedMark
      reads host.parser, host.parser.buffer
    {
      if p.kind == kind then hostPacketPending && Retained() == [p] else !hostPacketPending && StillWaits(p)
    }

    ghost predicate StillWaits(p: Packet)
      reads host`rejectedMark, host.parser, host.parser.buffer
    {
      host.Waits() && host.parser.Pending() == [p]
    }

    method ReadOctets(kind: Kind) returns (len: nat)
      requires host.Valid() && HearSide() && LeadSide() && SyncSide() && ValidWorld(world)
      modifies `portReads, host`fed, host`rxChunkLen, host`rxChunkOffset, host`rxOctetCount, host`rxErrorCount,
               host`rejectedMark, host`suspectClearCount, host`droppedPacketCount, host`rxPacketCount, host`fates,
               host`rxSelect, host`suspectPacketCount, host.rxChunk, host.parser, host.parser.buffer
      ensures host.Valid() && HearSide() && LeadSide() && SyncSide() && Follows(old(Record()), Record())
      ensures len <= host.parser.buffer.Length && (len > 0 ==> Moved(old(Record()), Record()))
      ensures TP.TakenOf(host.fates)
           == TP.TakenOf(old(host.fates)) + if len > 0 then [Packet(kind, host.parser.buffer[..len])] else []
      ensures old(host.open && host.Waits()) ==>
                var p := old(host.parser.Pending())[0];
                if p.kind == kind then len > 0 && Packet(kind, host.parser.buffer[..len]) == p
                else len == 0 && StillWaits(p)
    {
      hide Follows;
      hide Record;
      hide Moved;
      hide TP.TakenOf;
      hide TP.Transport.RxValid;
      hide TP.Transport.TxValid;
      hide TP.Transport.Received;
      hide HearSide;
      hide SS.Longest;
      FromFits(world.rx, portReads);
      var used;
      len, used := host.ReadInPlace(kind, From(world.rx, portReads));
      portReads := portReads + used;
      HearsMore(used);
      LineFollows();
      FatesMoved();
    }

    /** The port's next reads fit the transport's chunk. */
    lemma HeardNext(received: seq<byte>)
      requires ValidWorld(world)
      ensures TP.ReadsFit(From(world.rx, portReads)) && received + TP.Gathered(From(world.rx, portReads), 0) == received
    {
      FromFits(world.rx, portReads);
      TP.NothingGathered(From(world.rx, portReads));
    }

    /** What the transport received from the port's next reads follows what came in before. */
    lemma HeardSoFar(before: seq<byte>, after: seq<byte>, used: nat)
      requires heardFrom <= portReads && after == before + TP.Gathered(From(world.rx, portReads), used)
      ensures base + Heard(world.rx, heardFrom, portReads + used)
           == (base + Heard(world.rx, heardFrom, portReads)) + TP.Gathered(From(world.rx, portReads), used)
      ensures lead + after == (lead + before) + TP.Gathered(From(world.rx, portReads), used)
      ensures used == 0 ==> after == before
    {
      HeardMore(world.rx, heardFrom, portReads, used);
      TP.Associates(lead, before, TP.Gathered(From(world.rx, portReads), used));
      TP.Associates(base, Heard(world.rx, heardFrom, portReads), TP.Gathered(From(world.rx, portReads), used));
      TP.NothingGathered(From(world.rx, portReads));
    }

    // ---- From the controller, to the host ----

    /** The packet just read from the controller goes into the slot, adapted to the release. */
    method LoadFetched(original: Packet, ghost before: seq<Packet>)
      requires controllerPacket.Length >= 6 && AllReady(core, queued) && AllFit(out)
      requires !controllerPacketPending && 0 < |original.body| <= controllerPacket.Length && SelfDelimiting(original)
      requires QueuedPackets(queued) == OutPackets(out) && Originals(queued) == before
      requires epoch <= |out| && host.accepted == SentOf(out[epoch..]) && sdc.delivered == before + [original]
      modifies `controllerPacketKind, `controllerPacketLen, `controllerPacketPending, `queued, controllerPacket
      ensures ControllerSide() && controllerPacketPending
      ensures queued == old(queued) + [FromController(original, Profiled(core, original))]
    {
      hide Profiled;
      hide Originals;
      hide QueuedPackets;
      hide OutPackets;
      hide SentOf;
      hide AllReady;
      hide AllFit;
      hide SelfDelimiting;
      var adapted := Profiled(core, original);
      ProfiledDelimits(core, original);
      SL.Layer.CopyTo(controllerPacket, adapted.body);
      QueuedSnoc(core, queued, FromController(original, adapted));
      queued := queued + [FromController(original, adapted)];
      controllerPacketKind, controllerPacketLen, controllerPacketPending := original.kind, |adapted.body|, true;
    }

    /** The layer's next step, if it is a get, has the outside's answer. */
    method StepIfEmpty()
      requires sdc.Valid() && StepSide()
      modifies `steps
      ensures steps == old(steps) + if sdc.Held() == [] then 1 else 0
      ensures AllAnsweredBy(world, sdc.history + if sdc.Held() == [] then [Poll(old(steps))] else [])
    {
      hide AllAnsweredBy;
      hide SL.Recorded;
      assert sdc.history + [] == sdc.history;
      AnsweredMore(world, sdc.history, Poll(steps));
      if sdc.heldLen == 0 {
        steps := steps + 1;
      }
    }

    /** The `n`-th step of the routing layer, when it is a get. */
    ghost function Poll(n: nat): SR.Op {
      SR.Fetch(SL.HELD_SIZE, world.polled(n))
    }

    /** Of what the layer has, a packet of this kind that fits the slot was put there; any other is held. */
    ghost predicate Served(kind: Kind, asked: seq<Packet>, before: seq<Queued>)
      reads `controllerPacketPending, `queued, sdc`heldLen, sdc`heldKind, sdc.heldPacket
    {
      if asked != [] && asked[0].kind == kind && |asked[0].body| <= controllerPacket.Length
      then controllerPacketPending && Fetched(asked, before)
      else !controllerPacketPending && queued == before && sdc.Held() == asked
    }

    /** Ask the controller for its next packet, if it is of this kind. One it has of another kind stays held. */
    method FetchKind(kind: Kind)
      requires sdc.Valid() && ControllerSide() && StepSide() && !controllerPacketPending
      requires FreeOfSdc(controllerPacket) && ValidWorld(world)
      modifies `steps, `controllerPacketKind, `controllerPacketLen, `controllerPacketPending, `queued,
               controllerPacket, sdc, sdc.heldPacket, sdc.tables, sdc.tables.trackHandle, sdc.tables.outstanding,
               sdc.main`eventLen, sdc.main`eventPending, sdc.compat`eventLen, sdc.compat`eventPending
      ensures sdc.Valid() && ControllerSide() && StepSide() && sdc.taken == old(sdc.taken)
      ensures sdc.history == old(sdc.history) + if old(sdc.Held()) == [] then [Poll(old(steps))] else []
      ensures Served(kind, old(First()), old(queued))
    {
      hide SL.Layer.Valid;
      hide SL.Layer.Asked;
      hide Profiled;
      hide Originals;
      hide QueuedPackets;
      hide OutPackets;
      hide SentOf;
      hide AllReady;
      hide AllFit;
      hide AllAnsweredBy;
      hide SelfDelimiting;
      assert OutPackets(out) + [] == OutPackets(out);
      ghost var before := sdc.delivered;
      assert before + [] == before;
      LayerIsIntact();
      var now := steps;
      StepIfEmpty();
      var got := sdc.ReadKind(kind, world.polled(now), controllerPacket.Length);
      if got.Some? {
        LoadFetched(Packet(kind, got.value), before);
      }
    }

    /** The next controller packet, whatever its kind: asked for by kind, the first that answers. */
    method FetchNext()
      requires sdc.Valid() && ControllerSide() && StepSide() && FreeOfSdc(controllerPacket) && ValidWorld(world)
      modifies `steps, `controllerPacketKind, `controllerPacketLen, `controllerPacketPending, `queued,
               controllerPacket, sdc, sdc.heldPacket, sdc.tables, sdc.tables.trackHandle, sdc.tables.outstanding,
               sdc.main`eventLen, sdc.main`eventPending, sdc.compat`eventLen, sdc.compat`eventPending
      ensures sdc.Valid() && ControllerSide() && StepSide() && sdc.taken == old(sdc.taken)
      ensures old(queued) <= queued && old(sdc.history) <= sdc.history && LocalsOf(queued) == LocalsOf(old(queued))
      ensures old(controllerPacketPending) ==>
                && controllerPacketPending && Waiting() == old(Waiting())
                && queued == old(queued) && sdc.history == old(sdc.history)
      ensures old(!controllerPacketPending && Offers()) ==>
                controllerPacketPending && Fetched(old(First()), old(queued))
    {
      hide SL.Layer.Valid;
      hide SL.Layer.Asked;
      hide ControllerSide;
      hide StepSide;
      hide LocalsOf;
      if controllerPacketPending {
        return;
      }
      ghost var asked := First();
      for i := 0 to |FROM_CONTROLLER|
        invariant sdc.Valid() && ControllerSide() && StepSide() && sdc.taken == old(sdc.taken)
        invariant !controllerPacketPending && queued == old(queued) && old(sdc.history) <= sdc.history
        invariant if i == 0 then First() == asked else asked == [] || sdc.Held() == asked
        invariant forall k :: asked != [] && 0 <= k < i ==>
                    FROM_CONTROLLER[k] != asked[0].kind || |asked[0].body| > controllerPacket.Length
      {
        HeldIsAsked();
        ghost var next := First();
        FetchKind(FROM_CONTROLLER[i]);
        if controllerPacketPending {
          OriginalsOnly(old(queued), queued[|queued| - 1]);
          return;
        }
      }
      assert asked != [] && asked[0].kind != Command ==>
               || asked[0].kind == FROM_CONTROLLER[0] || asked[0].kind == FROM_CONTROLLER[1]
               || asked[0].kind == FROM_CONTROLLER[2] || asked[0].kind == FROM_CONTROLLER[3];
    }

    lemma OriginalsOnly(qs: seq<Queued>, q: Queued)
      requires q.FromController?
      ensures LocalsOf(qs + [q]) == LocalsOf(qs)
    {
      QueuedSnoc(core, qs, q);
    }

    lemma HeldIsAsked()
      requires sdc.Valid()
      ensures sdc.Held() != [] ==> First() == sdc.Held()
    {
      hide SL.Recorded;
    }

    /** What the layer has for the host now: what it holds, or what its next get gives. */
    ghost function First(): seq<Packet>
      reads `steps, sdc, sdc.main, sdc.main.event, sdc.compat, sdc.compat.event, sdc.heldPacket, sdc.tables
      reads sdc.tables.trackHandle, sdc.tables.outstanding, sdc.tables.creditHandle, sdc.tables.creditCount
    {
      if sdc.Intact() then sdc.Asked(world.polled(steps)) else []
    }

    /** It has a packet that the slot can hold. */
    ghost predicate Offers()
      reads `steps, sdc, sdc.main, sdc.main.event, sdc.compat, sdc.compat.event, sdc.heldPacket, sdc.tables
      reads sdc.tables.trackHandle, sdc.tables.outstanding, sdc.tables.creditHandle, sdc.tables.creditCount
    {
      First() != [] && First()[0].kind != Command && |First()[0].body| <= controllerPacket.Length
    }

    /** The packet was put in the slot, adapted. */
    ghost predicate Fetched(first: seq<Packet>, before: seq<Queued>)
      reads `queued
    {
      first != [] && queued == before + [FromController(first[0], Profiled(core, first[0]))]
    }

    /** Offer the waiting packet to the transport; one it could never hold is counted and gone. */
    method OfferHost()
      requires host.Valid() && ControllerSide() && SaySide() && ValidWorld(world) && controllerPacket != host.txStream
      modifies `portWrites, `writes, `controllerPacketPending, `out, `unsendableControllerPacketCount,
               host`txStreamLen, host`txStreamOffset, host`txOversizeCount, host`accepted, host.txStream, host`txSelect,
               host`txErrorCount, host`txBusyCount, host`txOctetCount, host`emitted
      ensures host.Valid() && ControllerSide() && SaySide()
      ensures old(writes) <= writes && DroppedOf(out) == old(DroppedOf(out))
      ensures out == old(out) + if !old(controllerPacketPending) || controllerPacketPending then []
              else [Departure(old(Waiting())[0])]
      ensures controllerPacketPending <==>
                old(controllerPacketPending && controllerPacketLen < TP.TX_SIZE && (!host.open || host.txStreamLen > 0))
      ensures controllerPacketPending ==> (!host.open || host.txStreamLen > 0) && Waiting() == old(Waiting())
    {
      hide TP.Transport.Valid;
      hide QueuedPackets;
      hide OutPackets;
      hide SentOf;
      hide DroppedOf;
      NoneDropped(out);
      hide Originals;
      hide AllReady;
      hide AllFit;
      hide SaySide;
      assert out + [] == out && SentOf(out[epoch..]) + [] == SentOf(out[epoch..]);
      if !controllerPacketPending {
        return;
      }
      if controllerPacketLen > TP.TX_SIZE - 1 {
        unsendableControllerPacketCount := unsendableControllerPacketCount + 1;
        Depart(Unsendable(Waiting()[0]));
      } else {
        SendWaiting();
      }
    }

    /** The waiting packet leaves the slot. */
    method Depart(ghost o: Out)
      requires controllerPacket.Length >= 6 && controllerPacketLen <= controllerPacket.Length && controllerPacketPending
      requires QueuedPackets(queued) == OutPackets(out) + Waiting() && Waiting() == [o.packet]
      requires Originals(queued) == sdc.delivered && AllReady(core, queued) && AllFit(out) && epoch <= |out|
      requires host.accepted == SentOf(out[epoch..]) + if o.Sent? then [o.packet] else []
      requires o.Sent? ==> |o.packet.body| < TP.TX_SIZE
      requires o.Unsendable? ==> |o.packet.body| >= TP.TX_SIZE
      modifies `controllerPacketPending, `out
      ensures ControllerSide() && !controllerPacketPending && out == old(out) + [o]
      ensures DroppedOf(out) == old(DroppedOf(out)) + if o.Dropped? then [o.packet] else []
    {
      hide QueuedPackets;
      hide OutPackets;
      hide SentOf;
      hide DroppedOf;
      hide Originals;
      hide AllReady;
      hide AllFit;
      OutGrows(out, epoch, o);
      out := out + [o];
      controllerPacketPending := false;
      assert OutPackets(out) + [] == OutPackets(out);
    }

    /** Write it, if the transport takes it: all of it, or none. */
    method SendWaiting()
      requires host.Valid() && ControllerSide() && SaySide() && ValidWorld(world) && controllerPacket != host.txStream
      requires controllerPacketPending && controllerPacketLen < TP.TX_SIZE
      modifies `portWrites, `writes, `controllerPacketPending, `out,
               host`txStreamLen, host`txStreamOffset, host`txOversizeCount, host`accepted, host.txStream, host`txSelect,
               host`txErrorCount, host`txBusyCount, host`txOctetCount, host`emitted
      ensures host.Valid() && ControllerSide() && SaySide()
      ensures old(writes) <= writes && DroppedOf(out) == old(DroppedOf(out))
      ensures controllerPacketPending <==> !host.open || old(host.txStreamLen) > 0
      ensures controllerPacketPending ==> out == old(out) && host.txStreamLen == old(host.txStreamLen)
      ensures !controllerPacketPending ==> out == old(out) + [Sent(old(Waiting())[0])]
    {
      hide TP.Transport.Valid;
      hide QueuedPackets;
      hide OutPackets;
      hide SentOf;
      hide DroppedOf;
      NoneDropped(out);
      hide Originals;
      hide AllReady;
      hide AllFit;
      hide SaySide;
      assert host.accepted + [] == host.accepted && SentOf(out[epoch..]) + [] == SentOf(out[epoch..]);
      var octets := controllerPacket[..controllerPacketLen];
      var ok := WriteOut(controllerPacketKind, octets);
      if ok {
        Depart(Sent(Packet(controllerPacketKind, octets)));
      }
    }

    /** A write of the port, on the record. */
    method WriteOut(kind: Kind, octets: seq<byte>) returns (ok: bool)
      requires host.Valid() && SaySide() && ValidWorld(world) && 0 < |octets| < TP.TX_SIZE
      modifies `portWrites, `writes,
               host`txStreamLen, host`txStreamOffset, host`txOversizeCount, host`accepted, host.txStream, host`txSelect,
               host`txErrorCount, host`txBusyCount, host`txOctetCount, host`emitted
      ensures host.Valid() && SaySide() && old(writes) <= writes
      ensures ok <==> host.open && old(host.txStreamLen) == 0
      ensures !ok ==> host.txStreamLen == old(host.txStreamLen)
      ensures host.accepted == old(host.accepted) + if ok then [Packet(kind, octets)] else []
    {
      hide TP.Transport.Valid;
      hide TP.Took;
      hide Said;
      assert host.emitted + [] == host.emitted;
      var sent := host.Write(kind, octets, world.tx(portWrites));
      ok := sent == |octets|;
      if ok {
        SaidMore(world.tx, writes, saidFrom, Frame(Packet(kind, octets)));
        portWrites, writes := portWrites + 1, writes + [Frame(Packet(kind, octets))];
      }
    }

    // ---- The pieces of the worker's pass ----

    /** While only packets are logged, one moment follows the other. */
    twostate lemma LogsFollow()
      requires unchanged(`epoch, `saidFrom, `heardFrom, `base, `portReads, `syncActive, `lead, `noise)
      requires unchanged(host`start, host`fed, host`fates, host`rejectedMark)
      requires old(done) <= done && old(queued) <= queued && old(out) <= out && old(writes) <= writes
      requires old(sdc.history) <= sdc.history
      requires DiscardedOf(done) == DiscardedOf(old(done)) && DroppedOf(out) == DroppedOf(old(out))
      ensures Follows(old(Record()), Record())
    {
    }

    twostate lemma PacketsUntouched()
      requires unchanged(`done, `queued, `out, `writes, `epoch, `saidFrom, `portReads)
      requires unchanged(sdc`history) && unchanged(host`fates)
      ensures Grows(old(Record()), Record())
    {
    }

    twostate lemma FatesMoved()
      ensures |old(host.fates)| < |host.fates| ==> Moved(old(Record()), Record())
    {
    }

    /** And so it does while only the port is read and written. */
    twostate lemma LineFollows()
      requires unchanged(`done, `queued, `out, `epoch, `saidFrom, `heardFrom, `base) && unchanged(sdc`history)
      requires old(portReads) <= portReads && old(writes) <= writes && old(noise) <= noise
      requires !old(syncActive) ==> unchanged(`syncActive, `lead, `noise) && unchanged(host`start)
      requires !old(syncActive) ==> old(host.fed) <= host.fed
      requires old(host.fates) <= host.fates && old(host.rejectedMark) <= host.rejectedMark
      requires TP.ForgivenSince(host.fates, |old(host.fates)|, old(host.rejectedMark))
      ensures Follows(old(Record()), Record())
    {
    }

    method HandleRetained()
      requires Valid() && hostPacketPending
      modifies `hostPacketPending, `hostPacketLen, `done,
               `steps, `locals, `hostPacketRetryCount, `invalidHostPacketCount,
               `controllerPacketKind, `controllerPacketLen, `controllerPacketPending, `queued, controllerPacket,
               sdc`history, sdc`taken, sdc`creditLast, sdc`chosen, sdc`delayed,
               sdc.tables, sdc.main, sdc.main.event, sdc.compat, sdc.compat.event,
               sdc.tables.trackHandle, sdc.tables.outstanding, sdc.tables.creditHandle, sdc.tables.creditCount
      ensures Valid() && Follows(old(Record()), Record())
      ensures |sdc.history| == |old(sdc.history)| + Tries(core, old(Retained())[0])
      ensures Met(old(Retained())[0], old(done), old(Retained()[0] in Ready()))
      ensures old(controllerPacketPending) ==> controllerPacketPending && Waiting() == old(Waiting())
    {
      hide Resolved;
      hide DiscardedOf;
      hide Waiting;
      hide Follows;
      hide Moved;
      hide Record;
      hide TP.Transport.Valid;
      hide SL.Layer.Valid;
      hide HostSide;
      hide LocalSide;
      hide ControllerSide;
      hide SyncSide;
      hide HearSide;
      hide LeadSide;
      hide SaySide;
      hide StepSide;
      hide Takeable;
      hide Met;
      OneRetained();
      OfferRetained();
      AllOrOneMore(old(Retained())[0], old(done), old(Takeable(Retained()[0])));
      LogsFollow();
    }

    lemma OneRetained()
      requires HostSide() && hostPacketPending
      ensures Retained() == [Retained()[0]]
    {
    }

    lemma AllOrOneMore(p: Packet, before: seq<Done>, released: bool)
      requires Met(p, before, released)
      ensures before <= done && DiscardedOf(done) == DiscardedOf(before)
      ensures released ==> !hostPacketPending && done == before + [Resolved(core, p)]
      ensures !released ==> hostPacketPending && done == before && Retained() == [p]
    {
      DoneSnoc(core, before, Resolved(core, p));
    }

    method TakeFromHost(kind: Kind)
      requires Valid() && !hostPacketPending
      modifies `portReads, `hostPacketKind, `hostPacketLen, `hostPacketPending,
               host`fed, host`rxChunkLen, host`rxChunkOffset, host`rxOctetCount, host`rxErrorCount,
               host`rejectedMark, host`suspectClearCount, host`droppedPacketCount, host`rxPacketCount, host`fates,
               host`rxSelect, host`suspectPacketCount, host.rxChunk, host.parser, host.parser.buffer
      ensures Valid() && Follows(old(Record()), Record())
      ensures hostPacketPending ==> Moved(old(Record()), Record())
      ensures old(host.open && host.Waits()) ==> Arrived(old(host.parser.Pending())[0], kind)
      ensures Waiting() == old(Waiting()) && Ready() == old(Ready())
    {
      hide Follows;
      hide Moved;
      hide Record;
      hide TP.Transport.Valid;
      hide SL.Layer.Valid;
      hide HostSide;
      hide LocalSide;
      hide ControllerSide;
      hide SyncSide;
      hide HearSide;
      hide LeadSide;
      hide SaySide;
      hide StepSide;
      hide Arrived;
      hide Takeable;
      ReadFromHost(kind);
    }

    /** Which packets would be taken now. */
    ghost function Ready(): iset<Packet>
      reads `steps, `controllerPacketPending
      reads sdc, sdc.main, sdc.main.event, sdc.compat, sdc.compat.event, sdc.heldPacket, sdc.tables
      reads sdc.tables.trackHandle, sdc.tables.outstanding, sdc.tables.creditHandle, sdc.tables.creditCount
    {
      iset p: Packet | Takeable(p)
    }

    /** The host's packet whose turn it is: the retained one, or the one that waits in the transport. */
    ghost function InLine(): seq<Packet>
      reads `hostPacketKind, `hostPacketLen, `hostPacketPending, host`open, host`rejectedMark
      reads host.parser, host.parser.buffer
    {
      if hostPacketPending then Retained() else if host.open && host.Waits() then host.parser.Pending() else []
    }

    lemma OneWaits()
      ensures host.Waits() ==> host.parser.Valid() && |host.parser.Pending()| == 1
      ensures host.Waits() ==> StillWaits(host.parser.Pending()[0])
    {
    }

    /** Ask the transport kind by kind; a packet that waits is found, whatever its kind. */
    method SeekFromHost()
      requires Valid() && !hostPacketPending
      modifies `hostPacketKind, `hostPacketPending, `hostPacketLen, `portReads,
               host`fed, host`rxChunkLen, host`rxChunkOffset, host`rxOctetCount, host`rxErrorCount,
               host`rejectedMark, host`suspectClearCount, host`droppedPacketCount, host`rxPacketCount, host`fates,
               host`rxSelect, host`suspectPacketCount, host.rxChunk, host.parser, host.parser.buffer
      ensures Valid() && Follows(old(Record()), Record()) && Waiting() == old(Waiting()) && Ready() == old(Ready())
      ensures hostPacketPending ==> Moved(old(Record()), Record())
      ensures old(InLine()) != [] ==> hostPacketPending && Retained() == old(InLine())
    {
      hide Follows;
      hide Moved;
      hide Record;
      hide Valid;
      hide TP.Transport.Waits;
      hide Retained;
      hide Waiting;
      hide Ready;
      hide StillWaits;
      ghost var before := Record();
      FollowsItself(before);
      OneWaits();
      ghost var waits := host.open && host.Waits();
      ghost var p := if waits then host.parser.Pending()[0] else Packet(Command, []);
      EveryKindIsAsked(p.kind);
      for i := 0 to |FROM_HOST|
        invariant Valid() && Follows(before, Record()) && !hostPacketPending
        invariant Waiting() == old(Waiting()) && Ready() == old(Ready())
        invariant waits ==> StillWaits(p) && forall k :: 0 <= k < i ==> FROM_HOST[k] != p.kind
      {
        StillWaiting();
        ghost var now := Record();
        TakeFromHost(FROM_HOST[i]);
        FollowsOn(before, now, Record());
        if hostPacketPending {
          return;
        }
      }
      assert !waits;
    }

    lemma StillWaiting()
      ensures forall p :: StillWaits(p) ==> host.parser.Valid() && host.Waits() && host.parser.Pending() == [p]
    {
    }

    lemma OneInLine()
      requires Valid()
      ensures hostPacketPending ==> InLine() == Retained() == [Retained()[0]]
      ensures |InLine()| <= 1
    {
      hide TP.Transport.RxValid;
      hide TP.Transport.TxValid;
      hide SL.Layer.Valid;
    }

    /** The routing layer has taken one step for a packet it is offered, and none otherwise. */
    twostate predicate OfferedOnce()
      reads sdc`history
    {
      && |sdc.history| <= |old(sdc.history)| + 1
      && (old(InLine()) != [] ==> |sdc.history| == |old(sdc.history)| + Tries(core, old(InLine())[0]))
    }

    /** The retained packet, or else the first the transport has, of whatever kind: offered once. */
    method HostProcess()
      requires Valid()
      modifies `hostPacketKind, `hostPacketPending, `hostPacketLen, `done, `portReads,
               `steps, `locals, `hostPacketRetryCount, `invalidHostPacketCount,
               `controllerPacketKind, `controllerPacketLen, `controllerPacketPending, `queued, controllerPacket,
               sdc`history, sdc`taken, sdc`creditLast, sdc`chosen, sdc`delayed,
               sdc.tables, sdc.main, sdc.main.event, sdc.compat, sdc.compat.event,
               sdc.tables.trackHandle, sdc.tables.outstanding, sdc.tables.creditHandle, sdc.tables.creditCount,
               host`fed, host`rxChunkLen, host`rxChunkOffset, host`rxOctetCount, host`rxErrorCount,
               host`rejectedMark, host`suspectClearCount, host`droppedPacketCount, host`rxPacketCount, host`fates,
               host`rxSelect, host`suspectPacketCount, host.rxChunk, host.parser, host.parser.buffer
      ensures Valid() && Follows(old(Record()), Record())
      ensures OfferedOnce()
      ensures old(InLine()) != [] ==> Met(old(InLine())[0], old(done), old(InLine()[0] in Ready()))
      ensures !old(hostPacketPending) && old(InLine()) != [] ==> Moved(old(Record()), Record())
      ensures old(controllerPacketPending) ==> controllerPacketPending && Waiting() == old(Waiting())
    {
      hide Follows;
      hide Moved;
      hide Record;
      hide Valid;
      hide TP.Transport.Waits;
      hide Ready;
      hide Retained;
      hide Waiting;
      OneInLine();
      hide Takeable;
      hide Met;
      ghost var before := Record();
      FollowsItself(before);
      if !hostPacketPending {
        SeekFromHost();
        if !hostPacketPending {
          return;
        }
      }
      ghost var now := Record();
      HandleRetained();
      FollowsOn(before, now, Record());
    }

    /** Pump the port both ways, on the record; never while its parser's buffer holds a retained packet. */
    method Pump()
      requires host.Valid() && HearSide() && SaySide() && SyncSide() && ValidWorld(world)
      modifies `portReads, `portWrites, `writes, host`fed, host`rxChunkLen, host`rxChunkOffset, host`rxOctetCount,
               host`rxErrorCount, host`rejectedMark, host`suspectClearCount, host`droppedPacketCount,
               host`rxPacketCount, host`fates, host.rxChunk, host.parser, host.parser.buffer, host`txStreamLen,
               host`txStreamOffset, host`txErrorCount, host`txBusyCount, host`txOctetCount, host`emitted
      ensures host.Valid() && HearSide() && SaySide() && SyncSide() && old(writes) <= writes
      ensures old(portReads) <= portReads && old(host.fed) <= host.fed
      ensures old(host.fates) <= host.fates && old(host.rejectedMark) <= host.rejectedMark
      ensures TP.ForgivenSince(host.fates, |old(host.fates)|, old(host.rejectedMark))
      ensures host.open ==> host.ReadOut(From(world.rx, old(portReads)), portReads - old(portReads))
      ensures TP.TakenOf(host.fates) == TP.TakenOf(old(host.fates))
      ensures old(host.Waits()) ==> host.Waits() && host.parser.Model() == old(host.parser.Model())
      ensures old(host.txStreamLen) == 0 ==> host.txStreamLen == 0
    {
      hide TP.Transport.ReadOut;
      hide TP.Transport.Waits;
      hide TP.TakenOf;
      hide TP.ForgivenSince;
      hide TP.Transport.Valid;
      hide TP.Transport.Received;
      hide TP.Transport.Unsent;
      hide TP.Took;
      hide HearSide;
      hide SaySide;
      ghost var unsent := host.Unsent();
      ClosedWhileScanning();
      var used := PumpPort();
      HearsMore(used);
      SaysMore(unsent);
    }

    lemma ClosedWhileScanning()
      requires SyncSide()
      ensures syncActive ==> !host.open
    {
    }

    method PumpPort() returns (used: nat)
      requires host.Valid() && SyncSide() && ValidWorld(world)
      modifies `portReads, `portWrites, `writes, host`fed, host`rxChunkLen, host`rxChunkOffset, host`rxOctetCount,
               host`rxErrorCount, host`rejectedMark, host`suspectClearCount, host`droppedPacketCount,
               host`rxPacketCount, host`fates, host.rxChunk, host.parser, host.parser.buffer, host`txStreamLen,
               host`txStreamOffset, host`txErrorCount, host`txBusyCount, host`txOctetCount, host`emitted
      ensures host.Valid() && SyncSide()
      ensures host.Received()
           == old(host.Received()) + TP.Gathered(From(world.rx, old(portReads)), used)
      ensures host.emitted
           == old(host.emitted) + if host.open then TP.Took(world.tx(old(portWrites)), old(host.Unsent()), 0) else []
      ensures portReads == old(portReads) + used && (!host.open ==> used == 0)
      ensures portWrites == old(portWrites) + if host.open then 1 else 0
      ensures writes == old(writes) + if host.open then [old(host.Unsent())] else []
      ensures old(host.fed) <= host.fed
      ensures old(host.fates) <= host.fates && old(host.rejectedMark) <= host.rejectedMark
      ensures TP.ForgivenSince(host.fates, |old(host.fates)|, old(host.rejectedMark))
      ensures host.open ==> host.ReadOut(From(world.rx, old(portReads)), used)
      ensures TP.TakenOf(host.fates) == TP.TakenOf(old(host.fates))
      ensures old(host.Waits()) ==> host.Waits() && host.parser.Model() == old(host.parser.Model())
      ensures old(host.txStreamLen) == 0 ==> host.txStreamLen == 0
    {
      hide TP.Transport.ReadOut;
      hide TP.Transport.Waits;
      hide TP.TakenOf;
      hide TP.Transport.Valid;
      hide TP.Transport.Received;
      hide TP.Transport.Unsent;
      hide TP.Took;
      hide SS.Longest;
      FromFits(world.rx, portReads);
      ghost var unsent := host.Unsent();
      used := host.Process(From(world.rx, portReads), world.tx(portWrites));
      portReads := portReads + used;
      portWrites := portWrites + if host.open then 1 else 0;
      writes := writes + if host.open then [unsent] else [];
    }

    /** A packet that waits keeps its place while the parser is left alone. */
    twostate lemma StillInLine()
      requires !old(hostPacketPending) && !hostPacketPending && host.open == old(host.open)
      requires old(host.Waits()) ==> host.Waits() && host.parser.Model() == old(host.parser.Model())
      ensures old(InLine()) != [] ==> InLine() == old(InLine())
    {
    }

    /** Reads of the port whose octets were received go on the record. */
    twostate lemma HearsMore(used: nat)
      requires old(HearSide()) && unchanged(`syncActive, `noise, `lead, `base, `heardFrom)
      requires portReads == old(portReads) + used && (syncActive ==> used == 0)
      requires host.Received() == old(host.Received()) + TP.Gathered(From(world.rx, old(portReads)), used)
      ensures HearSide()
    {
      hide TP.Transport.Received;
      hide Heard;
      HeardMore(world.rx, heardFrom, old(portReads), used);
      TP.Associates(lead, old(host.Received()), TP.Gathered(From(world.rx, old(portReads)), used));
      TP.Associates(base, Heard(world.rx, heardFrom, old(portReads)),
                    TP.Gathered(From(world.rx, old(portReads)), used));
      TP.NothingGathered(From(world.rx, old(portReads)));
    }

    /** And so does a write, if there was one. */
    twostate lemma SaysMore(stream: seq<byte>)
      requires old(SaySide()) && unchanged(`saidFrom)
      requires if host.open then writes == old(writes) + [stream] && portWrites == old(portWrites) + 1
               else writes == old(writes) && portWrites == old(portWrites)
      requires host.emitted == old(host.emitted)
                 + if host.open then TP.Took(world.tx(old(portWrites)), stream, 0) else []
      ensures SaySide()
    {
      hide TP.Took;
      hide Said;
      SaidMore(world.tx, old(writes), saidFrom, stream);
      assert old(host.emitted) + [] == old(host.emitted);
    }

    /** A port read out has been read, unless a packet waits or one was dropped. */
    twostate lemma ReadOrWaits()
      requires !hostPacketPending && host.open && old(portReads) <= portReads
      requires host.ReadOut(From(world.rx, old(portReads)), portReads - old(portReads))
      ensures InLine() != [] || Moved(old(Record()), Record())
    {
    }

    method PumpHost()
      requires Valid() && !hostPacketPending
      modifies `portReads, `portWrites, `writes, host`fed, host`rxChunkLen, host`rxChunkOffset, host`rxOctetCount,
               host`rxErrorCount, host`rejectedMark, host`suspectClearCount, host`droppedPacketCount,
               host`rxPacketCount, host`fates, host.rxChunk, host.parser, host.parser.buffer, host`txStreamLen,
               host`txStreamOffset, host`txErrorCount, host`txBusyCount, host`txOctetCount, host`emitted
      ensures Valid() && Follows(old(Record()), Record())
      ensures host.open ==> host.ReadOut(From(world.rx, old(portReads)), portReads - old(portReads))
      ensures host.open ==> InLine() != [] || Moved(old(Record()), Record())
      ensures Waiting() == old(Waiting()) && Ready() == old(Ready())
      ensures old(InLine()) != [] ==> InLine() == old(InLine())
      ensures old(host.txStreamLen) == 0 ==> host.txStreamLen == 0
    {
      hide Follows;
      hide Moved;
      hide Record;
      hide TP.Transport.ReadOut;
      hide TP.ForgivenSince;
      hide SS.FirstReset;
      hide TP.Transport.Valid;
      hide SL.Layer.Valid;
      hide LocalSide;
      hide ControllerSide;
      hide SyncSide;
      hide HearSide;
      hide SaySide;
      hide StepSide;
      hide TP.TakenOf;
      hide DonePackets;
      hide AcceptedOf;
      hide AllDue;
      hide InLine;
      hide Takeable;
      Pump();
      LineFollows();
      StillInLine();
      if host.open {
        ReadOrWaits();
      }
    }

    /** One chunk of the startup scan: noise, or the end of the first Reset frame in the stream. */
    method ScanChunk(data: seq<byte>) returns (found: bool)
      requires host.Valid() && SyncSide() && syncActive && 0 < |data| <= TP.CHUNK
      modifies `syncActive, `matched, `noise, `lead, host`flushedOctetCount, host`rxOctetCount, host`rxErrorCount,
               host`open, host`fed, host`start, host`rxChunkLen, host`rxChunkOffset, host.rxChunk, host.parser,
               host.parser.buffer
      ensures host.Valid() && SyncSide() && LeadSide() && old(noise) <= noise
      ensures found == !syncActive && Line() == old(Line()) + data
      ensures found ==> Synchronized()
    {
      hide TP.Transport.Valid;
      hide TP.Transport.Received;
      hide SS.Longest;
      hide SS.FirstReset;
      host.rxOctetCount := host.rxOctetCount + |data|;
      var now, end := SS.Scan(matched, data, noise);
      if end == 0 {
        matched := now;
        host.flushedOctetCount := host.flushedOctetCount + |data|;
        noise := noise + data;
        return false;
      }
      host.flushedOctetCount := host.flushedOctetCount + end - 4;
      matched, syncActive := 0, false;
      host.OpenAfterReset(data, end);
      CutAtReset(noise, data, end);
      noise := noise + data[..end];
      lead := noise[..|noise| - 4];
      ParserIsValid();
      return true;
    }

    lemma ParserIsValid()
      requires host.Valid()
      ensures host.parser.Valid()
    {
    }

    /** The scan has ended with the first Reset frame: the parser has its packet, and what came before was flushed. */
    ghost predicate Synchronized()
      reads `syncActive, `noise, `lead, `flushedBefore, host`open, host`flushedOctetCount, host`fed
      reads host.parser, host.parser.buffer
    {
      && !syncActive && host.open && SS.FirstReset(noise) && lead + SS.RESET == noise && SS.RESET <= host.fed
      && host.flushedOctetCount == flushedBefore + |lead|
      && host.parser.Valid() && host.parser.Pending() == [Packet(Command, [0x03, 0x0C, 0x00])]
    }

    /** A scan goes on until it ends, the port has no more, or the passes run out. */
    ghost predicate Scanned(port: nat -> TP.PortRead, used: nat)
      reads `syncActive
    {
      || !syncActive || used == 64
      || (used > 0 && (port(used - 1).Failed? || port(used - 1).data == []))
    }

    /** The scan itself, over one pass's reads. */
    method ScanPort(port: nat -> TP.PortRead) returns (used: nat)
      requires host.Valid() && SyncSide() && syncActive && TP.ReadsFit(port)
      modifies `syncActive, `matched, `noise, `lead, host`flushedOctetCount, host`rxOctetCount, host`rxErrorCount,
               host`open, host`fed, host`start, host`rxChunkLen, host`rxChunkOffset, host.rxChunk, host.parser,
               host.parser.buffer
      ensures host.Valid() && SyncSide() && LeadSide() && old(noise) <= noise
      ensures Line() == old(Line()) + TP.Gathered(port, used)
      ensures !syncActive ==> Synchronized()
      ensures Scanned(port, used)
    {
      hide TP.Transport.Valid;
      hide SyncSide;
      hide Synchronized;
      hide Line;
      used := 0;
      assert Line() + [] == Line();
      TP.NothingGathered(port);
      for pass := 0 to SYNC_PASSES
        invariant used == pass
        invariant host.Valid() && SyncSide() && syncActive && old(noise) <= noise
        invariant Line() == old(Line()) + TP.Gathered(port, used)
      {
        var got := port(used);
        used := used + 1;
        TP.GatheredMore(old(Line()), port, used);
        if got.Failed? {
          host.rxErrorCount := host.rxErrorCount + 1;
          return;
        }
        if got.data == [] {
          return;
        }
        TP.Associates(old(Line()), TP.Gathered(port, used - 1), got.data);
        var found := ScanChunk(got.data);
        if found {
          return;
        }
      }
    }

    /** The same, on the record. */
    method ScanLine()
      requires host.Valid() && SyncSide() && HearSide() && syncActive && ValidWorld(world)
      modifies `portReads, `syncActive, `matched, `noise, `lead, host`flushedOctetCount, host`rxOctetCount,
               host`rxErrorCount, host`open, host`fed, host`start, host`rxChunkLen, host`rxChunkOffset, host.rxChunk,
               host.parser, host.parser.buffer
      ensures host.Valid() && SyncSide() && HearSide() && LeadSide() && old(noise) <= noise
      ensures old(portReads) <= portReads
      ensures !syncActive ==> Synchronized()
      ensures Scanned(From(world.rx, old(portReads)), portReads - old(portReads))
    {
      hide TP.Transport.Valid;
      hide SyncSide;
      hide Synchronized;
      hide Scanned;
      hide Line;
      hide Heard;
      HeardNext([]);
      var used := ScanPort(From(world.rx, portReads));
      HeardSoFar([], [] + TP.Gathered(From(world.rx, portReads), used), used);
      portReads := portReads + used;
    }

    /**
     Startup synchronization for one pass: scan what the port gives until the first Reset
     frame ends. Nothing received is lost: it was noise before the frame, or the parser
     sees it after the frame.
     */
    method SyncProcess()
      requires Valid() && !hostPacketPending
      modifies `portReads, `syncActive, `matched, `noise, `lead, host`flushedOctetCount, host`rxOctetCount,
               host`rxErrorCount, host`open, host`fed, host`start, host`rxChunkLen, host`rxChunkOffset, host.rxChunk,
               host.parser, host.parser.buffer
      ensures Valid() && Follows(old(Record()), Record())
      ensures Waiting() == old(Waiting()) && Ready() == old(Ready())
      ensures old(syncActive) && !syncActive ==> Synchronized()
      ensures old(syncActive) ==> Scanned(From(world.rx, old(portReads)), portReads - old(portReads))
      ensures !old(syncActive) ==> !syncActive && host.open == old(host.open)
      ensures !old(syncActive) ==> portReads == old(portReads) && host.Received() == old(host.Received())
      ensures old(InLine()) != [] ==> InLine() == old(InLine())
    {
      hide Follows;
      hide Moved;
      hide Record;
      hide TP.Transport.Valid;
      hide SL.Layer.Valid;
      hide LocalSide;
      hide ControllerSide;
      hide HearSide;
      hide LeadSide;
      hide SaySide;
      hide StepSide;
      hide TP.TakenOf;
      hide DonePackets;
      hide AcceptedOf;
      hide AllDue;
      hide Takeable;
      hide Synchronized;
      hide Scanned;
      hide TP.Transport.Waits;
      hide SS.Longest;
      if syncActive {
        ScanLine();
      } else if host.open {
        OneWaits();
      }
      LineFollows();
    }

    // ---- The port opens and closes ----

    /** Choose whether the next opening scans for a Reset frame; a scan in progress is abandoned. */
    method SetStartupSync(enable: bool)
      requires Valid()
      modifies `startupSync, `syncActive, `matched, `lead, `base, `heardFrom
      ensures Valid() && startupSync == enable && !syncActive
    {
      hide TP.Transport.Valid;
      hide SL.Layer.Valid;
      hide HostSide;
      hide LocalSide;
      hide ControllerSide;
      hide SyncSide;
      hide HearSide;
      hide LeadSide;
      hide SaySide;
      hide StepSide;
      AbandonScan(enable);
    }

    method AbandonScan(enable: bool)
      modifies `startupSync, `syncActive, `matched, `lead, `base, `heardFrom
      ensures SyncSide() && HearSide() && LeadSide() && startupSync == enable && !syncActive
    {
      hide Heard;
      hide TP.Transport.Received;
      hide SS.Longest;
      NothingHeard(world.rx, portReads);
      startupSync, syncActive, matched := enable, false, 0;
      lead, base, heardFrom := [], host.Received(), portReads;
      assert [] + host.Received() == host.Received() == host.Received() + [];
    }

    /** The transport has been closed: both directions start again after everything so far. */
    method CloseHost()
      requires host.Valid() && ControllerSide() && SaySide()
      modifies `epoch, `saidFrom, `heardFrom, `base, `lead, host`open, host`rxChunkLen, host`rxChunkOffset,
               host`start, host`fed, host`rxSelect, host`txSelect, host`txStreamLen, host`txStreamOffset,
               host`accepted, host`emitted, host.parser
      ensures host.Valid() && ControllerSide() && SaySide() && !host.open && host.parser.mode == H4Parser.TypeMode
      ensures host.Received() == base == lead == [] && heardFrom == portReads
      ensures host.txStreamLen == 0 && LeadSide()
      ensures !syncActive ==> HearSide() && SyncSide()
    {
      hide TP.Transport.Valid;
      hide OutPackets;
      hide QueuedPackets;
      hide Originals;
      hide AllReady;
      hide AllFit;
      hide TP.Transport.Received;
      hide SentOf;
      hide Said;
      hide Heard;
      hide SS.Longest;
      host.Close();
      epoch, saidFrom := |out|, |writes|;
      heardFrom, base, lead := portReads, [], [];
      NothingHeard(world.rx, portReads);
      NothingSaid(world.tx, out, writes);
    }

    /** A port that starts with a packet keeps its first chunk; anything else is flushed and counted. */
    method OpenDirectly()
      requires host.Valid() && ValidWorld(world) && !syncActive
      modifies `portReads, `heardFrom, `base, `lead, host`open, host`rxChunkLen, host`rxChunkOffset, host`start,
               host`fed, host`rxOctetCount, host`flushedOctetCount, host`rejectedMark, host.rxChunk, host.parser
      ensures host.Valid() && host.open && HearSide() && LeadSide() && lead == [] && old(portReads) < portReads
      ensures var first := world.rx(old(portReads));
              if StartsPacket(first) then
                && base == old(host.fed) && host.Received() == base + first.data
                && heardFrom == old(portReads) && portReads == heardFrom + 1
                && host.flushedOctetCount == old(host.flushedOctetCount)
              else
                && host.Received() == base == [] && heardFrom == portReads
                && host.flushedOctetCount
                   == old(host.flushedOctetCount) + |Heard(world.rx, old(portReads), portReads)|
    {
      hide TP.Transport.Valid;
      hide TP.Transport.Received;
      hide Heard;
      hide HearSide;
      hide LeadSide;
      var first := world.rx(portReads);
      HeardOne(world.rx, portReads);
      if StartsPacket(first) {
        OpenWithFirst(first.data);
        return;
      }
      portReads := portReads + 1;
      if first.Octets? {
        host.flushedOctetCount := host.flushedOctetCount + |first.data|;
      }
      Flush();
      BeginHearing();
      HeardJoins(world.rx, old(portReads), old(portReads) + 1, portReads);
    }

    /** The first chunk is received, after what the parser has been fed in this epoch. */
    method OpenWithFirst(data: seq<byte>)
      requires host.Valid() && ValidWorld(world) && !syncActive && data != []
      requires world.rx(portReads) == TP.Octets(data)
      modifies `portReads, `heardFrom, `base, `lead,
               host`open, host`rxChunkLen, host`rxChunkOffset, host`rxOctetCount, host.rxChunk
      ensures host.Valid() && host.open && HearSide() && LeadSide() && lead == []
      ensures base == old(host.fed) && host.Received() == base + data
      ensures heardFrom == old(portReads) && portReads == heardFrom + 1
    {
      hide TP.Transport.Valid;
      hide TP.Transport.Received;
      hide Heard;
      HeardOne(world.rx, portReads);
      lead, heardFrom, base := [], portReads, host.fed;
      portReads := portReads + 1;
      host.OpenWith(data);
      assert [] + host.Received() == host.Received();
    }

    /** The transport opens: what the port has by then is flushed and counted. */
    method Flush()
      requires host.Valid() && ValidWorld(world)
      modifies `portReads, host`open, host`rxChunkLen, host`rxChunkOffset, host`start, host`fed,
               host`flushedOctetCount, host`rejectedMark, host.rxChunk, host.parser
      ensures host.Valid() && host.open && host.Received() == [] && old(portReads) <= portReads
      ensures host.flushedOctetCount == old(host.flushedOctetCount) + |Heard(world.rx, old(portReads), portReads)|
    {
      hide TP.Transport.Valid;
      hide TP.Transport.Received;
      hide TP.Gathered;
      hide Heard;
      FromFits(world.rx, portReads);
      var used := host.Open(From(world.rx, portReads));
      FlushIsHeard(world.rx, portReads, used);
      portReads := portReads + if used < TP.RX_PASSES then used + 1 else used;
    }

    /** With nothing received a new receive epoch begins at the next read. */
    ghost method BeginHearing()
      requires !syncActive && host.Received() == []
      modifies `lead, `heardFrom, `base
      ensures HearSide() && LeadSide() && lead == base == [] && heardFrom == portReads
    {
      hide Heard;
      hide TP.Transport.Received;
      lead, heardFrom, base := [], portReads, [];
      NothingHeard(world.rx, portReads);
    }

    /** The port stays closed until the first Reset frame has gone by. */
    method StartScan()
      requires host.Valid() && ControllerSide() && SaySide() && startupSync
      modifies `syncActive, `matched, `noise, `flushedBefore, `epoch, `saidFrom, `heardFrom, `base, `lead, host`open,
               host`rxChunkLen, host`rxChunkOffset, host`start, host`fed, host`rxSelect, host`txSelect,
               host`txStreamLen, host`txStreamOffset, host`accepted, host`emitted, host.parser
      ensures host.Valid() && ControllerSide() && SaySide() && SyncSide() && HearSide() && LeadSide()
      ensures syncActive && noise == [] && !host.open
    {
      hide TP.Transport.Valid;
      hide ControllerSide;
      hide SaySide;
      hide SS.Longest;
      hide Heard;
      hide TP.Transport.Received;
      SS.NothingMatched();
      CloseHost();
      syncActive, matched := true, 0;
      noise, flushedBefore := [], host.flushedOctetCount;
      NothingHeard(world.rx, portReads);
    }

    method BeginSync()
      requires Valid() && startupSync
      modifies `syncActive, `matched, `noise, `flushedBefore, `epoch, `saidFrom, `heardFrom, `base, `lead, host`open,
               host`rxChunkLen, host`rxChunkOffset, host`start, host`fed, host`rxSelect, host`txSelect,
               host`txStreamLen, host`txStreamOffset, host`accepted, host`emitted, host.parser
      ensures Valid() && syncActive && noise == [] && !host.open
    {
      hide TP.Transport.Valid;
      hide SL.Layer.Valid;
      hide HostSide;
      hide LocalSide;
      hide ControllerSide;
      hide SyncSide;
      hide HearSide;
      hide LeadSide;
      hide SaySide;
      hide StepSide;
      StartScan();
    }

    method OpenNow()
      requires Valid() && !syncActive
      modifies `portReads, `heardFrom, `base, `lead, host`open, host`rxChunkLen, host`rxChunkOffset, host`start,
               host`fed, host`rxOctetCount, host`flushedOctetCount, host`rejectedMark, host.rxChunk, host.parser
      ensures Valid() && host.open && !syncActive
      ensures var first := world.rx(old(portReads));
              host.Received() == if StartsPacket(first) then old(host.fed) + first.data else []
    {
      hide TP.Transport.RxValid;
      hide TP.Transport.TxValid;
      hide SL.Layer.Valid;
      hide HostSide;
      hide LocalSide;
      hide ControllerSide;
      hide HearSide;
      hide LeadSide;
      hide SaySide;
      hide StepSide;
      hide SS.Longest;
      hide TP.Transport.Received;
      OpenDirectly();
    }

    /** The port opens: with a scan, with its first chunk, or with what was printed before flushed. */
    method PortOpen()
      requires Valid()
      modifies `portReads, `syncActive, `matched, `noise, `flushedBefore, `epoch, `saidFrom, `heardFrom, `base,
               `lead, host`open, host`rxChunkLen, host`rxChunkOffset, host`start, host`fed, host`rxSelect,
               host`txSelect, host`txStreamLen, host`txStreamOffset, host`accepted, host`emitted, host.parser,
               host`rxOctetCount, host`flushedOctetCount, host`rejectedMark, host.rxChunk
      ensures Valid() && (if startupSync then syncActive && noise == [] && !host.open else !syncActive && host.open)
      ensures !startupSync ==>
                var first := world.rx(old(portReads));
                host.Received() == if StartsPacket(first) then old(host.fed) + first.data else []
    {
      hide Valid;
      hide TP.Transport.Received;
      if startupSync {
        BeginSync();
      } else {
        SyncOnlyIfAsked();
        OpenNow();
      }
    }

    lemma SyncOnlyIfAsked()
      requires Valid()
      ensures syncActive ==> startupSync && !host.open
    {
    }

    /** Both retained packets go with the port, each recorded. */
    method DropRetained()
      requires HostSide() && LocalSide() && ControllerSide()
      modifies `hostPacketPending, `hostPacketLen, `done, `controllerPacketPending, `controllerPacketLen, `out
      ensures HostSide() && LocalSide() && ControllerSide() && !hostPacketPending && !controllerPacketPending
      ensures done == old(done) + if old(hostPacketPending) then [Discarded(old(Retained())[0])] else []
      ensures out == old(out) + if old(controllerPacketPending) then [Dropped(old(Waiting())[0])] else []
    {
      hide HostSide;
      hide LocalSide;
      hide ControllerSide;
      hide Retained;
      hide Waiting;
      DropFromHost();
      DropForHost();
    }

    method DropFromHost()
      requires HostSide() && LocalSide()
      modifies `hostPacketPending, `hostPacketLen, `done
      ensures HostSide() && LocalSide() && !hostPacketPending
      ensures done == old(done) + if old(hostPacketPending) then [Discarded(old(Retained())[0])] else []
    {
      hide TP.TakenOf;
      hide DonePackets;
      hide AcceptedOf;
      hide AnsweredOf;
      hide AllDue;
      hide LocalsOf;
      hide Replies;
      assert done + [] == done;
      NoneMore(done);
      if hostPacketPending {
        ghost var p := Retained()[0];
        Finish(Discarded(p));
      }
      hostPacketPending, hostPacketLen := false, 0;
    }

    method DropForHost()
      requires ControllerSide()
      modifies `controllerPacketPending, `controllerPacketLen, `out
      ensures ControllerSide() && !controllerPacketPending
      ensures out == old(out) + if old(controllerPacketPending) then [Dropped(old(Waiting())[0])] else []
    {
      hide QueuedPackets;
      hide OutPackets;
      hide Originals;
      hide SentOf;
      hide DroppedOf;
      hide AllReady;
      hide AllFit;
      assert out + [] == out;
      if controllerPacketPending {
        assert SentOf(out[epoch..]) + [] == SentOf(out[epoch..]);
        Depart(Dropped(Waiting()[0]));
      }
      controllerPacketPending, controllerPacketLen := false, 0;
    }

    method PortClose()
      requires Valid()
      modifies `syncActive, `matched, `epoch, `saidFrom, `heardFrom, `base, `lead, `hostPacketPending,
               `hostPacketLen, `done, `controllerPacketPending, `controllerPacketLen, `out, host`open,
               host`rxChunkLen, host`rxChunkOffset, host`start, host`fed, host`rxSelect, host`txSelect,
               host`txStreamLen, host`txStreamOffset, host`accepted, host`emitted, host.parser
      ensures Valid() && !host.open && !syncActive && !hostPacketPending && !controllerPacketPending
      ensures host.Received() == [] && host.txStreamLen == 0
      ensures done == old(done) + if old(hostPacketPending) then [Discarded(old(Retained())[0])] else []
      ensures out == old(out) + if old(controllerPacketPending) then [Dropped(old(Waiting())[0])] else []
    {
      hide TP.Transport.Valid;
      hide SL.Layer.Valid;
      hide HostSide;
      hide LocalSide;
      hide ControllerSide;
      hide SyncSide;
      hide HearSide;
      hide LeadSide;
      hide SaySide;
      hide StepSide;
      hide Retained;
      hide Waiting;
      CloseAndDrop();
    }

    method CloseAndDrop()
      requires host.Valid() && HostSide() && LocalSide() && ControllerSide() && SaySide()
      modifies `syncActive, `matched, `epoch, `saidFrom, `heardFrom, `base, `lead, `hostPacketPending,
               `hostPacketLen, `done, `controllerPacketPending, `controllerPacketLen, `out, host`open,
               host`rxChunkLen, host`rxChunkOffset, host`start, host`fed, host`rxSelect, host`txSelect,
               host`txStreamLen, host`txStreamOffset, host`accepted, host`emitted, host.parser
      ensures host.Valid() && HostSide() && LocalSide() && ControllerSide()
      ensures SyncSide() && HearSide() && LeadSide() && SaySide()
      ensures !host.open && !syncActive && !hostPacketPending && !controllerPacketPending
      ensures host.Received() == [] && host.txStreamLen == 0
      ensures done == old(done) + if old(hostPacketPending) then [Discarded(old(Retained())[0])] else []
      ensures out == old(out) + if old(controllerPacketPending) then [Dropped(old(Waiting())[0])] else []
    {
      hide TP.Transport.Valid;
      hide HostSide;
      hide LocalSide;
      hide ControllerSide;
      hide SyncSide;
      hide HearSide;
      hide LeadSide;
      hide SaySide;
      hide Retained;
      hide Waiting;
      hide TP.Transport.Received;
      syncActive, matched := false, 0;
      CloseHost();
      DropRetained();
    }

    // ---- The worker's pass ----

    method FetchPacket()
      requires Valid()
      modifies `steps, `controllerPacketKind, `controllerPacketLen, `controllerPacketPending, `queued,
               controllerPacket, sdc, sdc.heldPacket, sdc.tables, sdc.tables.trackHandle, sdc.tables.outstanding,
               sdc.main`eventLen, sdc.main`eventPending, sdc.compat`eventLen, sdc.compat`eventPending
      ensures Valid() && Follows(old(Record()), Record()) && InLine() == old(InLine())
      ensures old(controllerPacketPending) ==> controllerPacketPending && Waiting() == old(Waiting())
      ensures old(!controllerPacketPending && Offers()) ==>
                controllerPacketPending && Fetched(old(First()), old(queued))
    {
      hide InLine;
      hide Follows;
      hide Moved;
      hide Record;
      hide TP.Transport.Valid;
      hide SL.Layer.Valid;
      hide ControllerSide;
      hide SyncSide;
      hide HearSide;
      hide LeadSide;
      hide SaySide;
      hide StepSide;
      hide Offers;
      hide First;
      hide Waiting;
      hide TP.TakenOf;
      hide DonePackets;
      hide AcceptedOf;
      hide AnsweredOf;
      hide AllDue;
      hide LocalsOf;
      hide Replies;
      FetchNext();
      LogsFollow();
    }

    method StartPacket()
      requires Valid()
      modifies `portWrites, `writes, `controllerPacketPending, `out, `unsendableControllerPacketCount,
               host`txStreamLen, host`txStreamOffset, host`txOversizeCount, host`accepted, host.txStream, host`txSelect,
               host`txErrorCount, host`txBusyCount, host`txOctetCount, host`emitted
      ensures Valid() && Follows(old(Record()), Record()) && InLine() == old(InLine())
      ensures out == old(out) + if !old(controllerPacketPending) || controllerPacketPending then []
              else [Departure(old(Waiting())[0])]
      ensures controllerPacketPending <==>
                old(controllerPacketPending && controllerPacketLen < TP.TX_SIZE && (!host.open || host.txStreamLen > 0))
      ensures controllerPacketPending ==> Blocked()
    {
      hide InLine;
      hide Follows;
      hide Moved;
      hide DroppedOf;
      hide Departure;
      hide Record;
      hide TP.Transport.RxValid;
      hide TP.Transport.TxValid;
      hide SL.Layer.Valid;
      hide HostSide;
      hide LocalSide;
      hide ControllerSide;
      hide SyncSide;
      hide HearSide;
      hide LeadSide;
      hide SaySide;
      hide StepSide;
      hide Waiting;
      NoneDropped(out);
      OfferHost();
      LogsFollow();
    }

    lemma NoneDropped(os: seq<Out>)
      ensures DroppedOf(os) + [] == DroppedOf(os) && os + [] == os
    {
    }

    /** The transport takes no packet now: it is closed, or still busy with the last one. */
    predicate Blocked()
      reads host`open, host`txStreamLen
    {
      !host.open || host.txStreamLen > 0
    }

    /**
     Up to the burst's end: the next controller packet, as long as the transport takes them.
     It ends with the transport blocked, with nothing fetched, or with all of the burst gone
     and another pass asked for.
     */
    method Burst()
      requires Valid()
      modifies `steps, `portWrites, `writes, `processAgain, `controllerPacketKind, `controllerPacketLen,
               `controllerPacketPending, `queued, `out, `unsendableControllerPacketCount, controllerPacket, sdc,
               sdc.heldPacket, sdc.tables, sdc.tables.trackHandle, sdc.tables.outstanding, sdc.main`eventLen,
               sdc.main`eventPending, sdc.compat`eventLen, sdc.compat`eventPending, host`txStreamLen,
               host`txStreamOffset, host`txOversizeCount, host`accepted, host.txStream, host`txSelect,
               host`txErrorCount, host`txBusyCount, host`txOctetCount, host`emitted
      ensures Valid() && Follows(old(Record()), Record())
      ensures controllerPacketPending ==> Blocked()
      ensures !old(processAgain) ==> (processAgain <==> |out| == |old(out)| + 15)
      ensures !old(controllerPacketPending) && old(Offers()) ==> old(queued) + [Fresh(old(First()))] <= queued
      ensures old(controllerPacketPending && !Blocked()) ==> old(out) + [Departure(old(Waiting())[0])] <= out
    {
      hide Valid;
      hide Offers;
      hide First;
      hide Waiting;
      hide Fresh;
      hide Blocked;
      hide Follows;
      hide Moved;
      hide Record;
      hide Departure;
      ghost var before := Record();
      FollowsItself(before);
      OneForHost();
      for pass := 1 to BURST
        invariant Valid() && Follows(before, Record()) && processAgain == old(processAgain)
        invariant |out| == |old(out)| + pass - 1
        invariant pass == 1 ==> Record() == before && queued == old(queued) && out == old(out)
        invariant pass == 1 ==> controllerPacketPending == old(controllerPacketPending) && Blocked() == old(Blocked())
        invariant pass == 1 ==> Offers() == old(Offers()) && First() == old(First()) && Waiting() == old(Waiting())
        invariant pass > 1 ==> !controllerPacketPending
        invariant (pass > 1 && !old(controllerPacketPending) && old(Offers()))
                  ==> old(queued) + [Fresh(old(First()))] <= queued
        invariant (pass > 1 && old(controllerPacketPending && !Blocked()))
                  ==> old(out) + [Departure(old(Waiting())[0])] <= out
      {
        ghost var now := Record();
        Recorded();
        OneForHost();
        var more := ServeController();
        FollowsOn(before, now, Record());
        FollowsGrown(now);
        if !more {
          return;
        }
      }
      processAgain := true;
    }

    lemma OneForHost()
      requires Valid()
      ensures |Waiting()| == if controllerPacketPending then 1 else 0
    {
      hide TP.Transport.Valid;
      hide SL.Layer.Valid;
    }

    lemma FollowsGrown(a: Snapshot)
      requires Follows(a, Record())
      ensures a.done <= done && a.queued <= queued && a.out <= out
    {
      FollowsGrows(a, Record());
    }

    lemma Recorded()
      ensures Record().done == done && Record().queued == queued && Record().out == out
    {
    }

    /** How a packet the layer has is queued. */
    ghost function Fresh(first: seq<Packet>): Queued {
      if first == [] then Local(Packet(Event, [])) else FromController(first[0], Profiled(core, first[0]))
    }

    /** A controller packet, if the slot is free, and then the transport, if it is. True when a packet left. */
    method ServeController() returns (more: bool)
      requires Valid()
      modifies `steps, `portWrites, `writes, `controllerPacketKind, `controllerPacketLen, `controllerPacketPending,
               `queued, `out, `unsendableControllerPacketCount, controllerPacket,
               sdc, sdc.heldPacket, sdc.tables, sdc.tables.trackHandle, sdc.tables.outstanding,
               sdc.main`eventLen, sdc.main`eventPending, sdc.compat`eventLen, sdc.compat`eventPending,
               host`txStreamLen, host`txStreamOffset, host`txOversizeCount, host`accepted, host.txStream, host`txSelect,
               host`txErrorCount, host`txBusyCount, host`txOctetCount, host`emitted
      ensures Valid() && Follows(old(Record()), Record()) && InLine() == old(InLine())
      ensures |out| == |old(out)| + (if more then 1 else 0) && (more ==> !controllerPacketPending)
      ensures controllerPacketPending ==> Blocked()
      ensures !old(controllerPacketPending) && old(Offers()) ==> queued == old(queued) + [Fresh(old(First()))]
      ensures old(controllerPacketPending && !Blocked()) ==> out == old(out) + [Departure(old(Waiting())[0])]
    {
      hide InLine;
      hide Valid;
      hide Offers;
      hide First;
      hide Waiting;
      hide Follows;
      hide Moved;
      hide Record;
      hide Departure;
      ghost var before := Record();
      FetchPacket();
      if !controllerPacketPending {
        return false;
      }
      ghost var now := Record();
      StartPacket();
      FollowsOn(before, now, Record());
      more := !controllerPacketPending;
    }

    /** The startup scan and then the port itself, unless a packet is retained in its parser's buffer. */
    method ProcessPort()
      requires Valid()
      modifies `portReads, `portWrites, `writes, `syncActive, `matched, `noise, `lead, host`flushedOctetCount,
               host`open, host`start, host`fed, host`rxChunkLen, host`rxChunkOffset, host`rxOctetCount,
               host`rxErrorCount, host`rejectedMark, host`suspectClearCount, host`droppedPacketCount,
               host`rxPacketCount, host`fates, host.rxChunk, host.parser, host.parser.buffer, host`txStreamLen,
               host`txStreamOffset, host`txErrorCount, host`txBusyCount, host`txOctetCount, host`emitted
      ensures Valid() && Follows(old(Record()), Record())
      ensures Waiting() == old(Waiting()) && Ready() == old(Ready())
      ensures old(InLine()) != [] ==> InLine() == old(InLine())
      ensures old(!hostPacketPending && !syncActive && host.open) ==> InLine() != [] || Moved(old(Record()), Record())
      ensures old(host.open && !Blocked()) ==> !Blocked()
    {
      hide Follows;
      hide Moved;
      hide Record;
      hide Valid;
      hide Ready;
      hide Waiting;
      hide InLine;
      hide TP.Transport.ReadOut;
      hide Synchronized;
      ghost var before := Record();
      FollowsItself(before);
      if hostPacketPending {
        return;
      }
      SyncOnlyIfAsked();
      SyncProcess();
      ghost var now := Record();
      PumpHost();
      FollowsOn(before, now, Record());
    }

    /** The packet of the host whose turn it was has its outcome, if it could have it. */
    twostate predicate HeadServed()
      reads `done
    {
      old(InLine() != [] && InLine()[0] in Ready()) ==> old(done) + [Resolved(core, old(InLine())[0])] <= done
    }

    /** If it could not, it is retained. */
    twostate predicate HeldBack()
      reads `hostPacketKind, `hostPacketLen, `hostPacketPending, `done, host.parser.buffer
    {
      old(InLine() != [] && InLine()[0] !in Ready()) ==>
        hostPacketPending && done == old(done) && Retained() == [old(InLine())[0]]
    }

    /** And if the slot was full and the port free, the slot is free by then. */
    twostate predicate SlotFreed()
      reads `hostPacketKind, `hostPacketLen, `hostPacketPending, `done, `controllerPacketPending
      reads host`open, host`rejectedMark, host.parser, host.parser.buffer
    {
      old(InLine() != [] && InLine()[0] !in Ready() && controllerPacketPending && !Blocked()) ==>
        done == old(done) && InLine() == [old(InLine())[0]] && !controllerPacketPending
    }

    /** And a command answered here has its outcome even if the slot was full, since that packet leaves first. */
    twostate predicate LocalServed()
      reads `done
    {
      (old(InLine() != [] && AnsweredHere(core, InLine()[0]) && controllerPacketPending && !Blocked()))
      ==> old(done) + [Resolved(core, old(InLine())[0])] <= done
    }

    /** The packet that waited for the host has left, sent or too long to be, if the port was free. */
    twostate predicate WaitingLeft()
      reads `out
    {
      old(!Blocked()) && old(Waiting()) != [] ==> old(out) + [Departure(old(Waiting())[0])] <= out
    }

    twostate lemma HeadMet()
      requires old(InLine()) != [] ==> Met(old(InLine())[0], old(done), old(InLine()[0] in Ready()))
      ensures HeadServed() && HeldBack()
    {
    }

    /** The port and the host's packet. */
    method ServeHost()
      requires Valid()
      modifies `hostPacketKind, `hostPacketPending, `hostPacketLen, `done, `portReads, `steps, `locals,
               `hostPacketRetryCount, `invalidHostPacketCount, `controllerPacketKind, `controllerPacketLen,
               `controllerPacketPending, `queued, controllerPacket, sdc`history, sdc`taken, sdc`creditLast,
               sdc`chosen, sdc`delayed, sdc.tables, sdc.main, sdc.main.event, sdc.compat, sdc.compat.event,
               sdc.tables.trackHandle, sdc.tables.outstanding, sdc.tables.creditHandle, sdc.tables.creditCount,
               host`rxSelect, host`suspectPacketCount, host`fed, host`rxChunkLen, host`rxChunkOffset,
               host`rxOctetCount, host`rxErrorCount, host`rejectedMark, host`suspectClearCount,
               host`droppedPacketCount, host`rxPacketCount, host`fates, host.rxChunk, host.parser,
               host.parser.buffer, `portWrites, `writes, host`txStreamLen, host`txStreamOffset, host`txErrorCount,
               host`txBusyCount, host`txOctetCount, host`emitted, `syncActive, `matched, `noise, `lead,
               host`flushedOctetCount, host`open, host`start
      ensures Valid() && Follows(old(Record()), Record())
      ensures old(!hostPacketPending && !syncActive && host.open) ==> Moved(old(Record()), Record())
      ensures HeadServed() && HeldBack()
      ensures old(controllerPacketPending) ==> controllerPacketPending && Waiting() == old(Waiting())
      ensures old(host.open && !Blocked()) ==> !Blocked()
    {
      hide Valid;
      hide Ready;
      hide Waiting;
      hide InLine;
      hide Met;
      hide HeadServed;
      hide HeldBack;
      hide Retained;
      hide Blocked;
      hide TP.Transport.Waits;
      hide Follows;
      hide Moved;
      hide Record;
      ghost var before := Record();
      ProcessPort();
      ghost var now := Record();
      HostProcess();
      FollowsOn(before, now, Record());
      HeadMet();
    }

    /** The port again, without the startup scan, and the host's packet again. */
    method ServeHostAgain()
      requires Valid()
      modifies `hostPacketKind, `hostPacketPending, `hostPacketLen, `done, `portReads, `steps, `locals,
               `hostPacketRetryCount, `invalidHostPacketCount, `controllerPacketKind, `controllerPacketLen,
               `controllerPacketPending, `queued, controllerPacket, sdc`history, sdc`taken, sdc`creditLast,
               sdc`chosen, sdc`delayed, sdc.tables, sdc.main, sdc.main.event, sdc.compat, sdc.compat.event,
               sdc.tables.trackHandle, sdc.tables.outstanding, sdc.tables.creditHandle, sdc.tables.creditCount,
               host`rxSelect, host`suspectPacketCount, host`fed, host`rxChunkLen, host`rxChunkOffset,
               host`rxOctetCount, host`rxErrorCount, host`rejectedMark, host`suspectClearCount,
               host`droppedPacketCount, host`rxPacketCount, host`fates, host.rxChunk, host.parser,
               host.parser.buffer, `portWrites, `writes, host`txStreamLen, host`txStreamOffset, host`txErrorCount,
               host`txBusyCount, host`txOctetCount, host`emitted
      ensures Valid() && Follows(old(Record()), Record())
      ensures HeadServed()
    {
      hide Valid;
      hide Ready;
      hide Waiting;
      hide InLine;
      hide Met;
      hide HeadServed;
      hide HeldBack;
      hide Follows;
      hide Moved;
      hide Record;
      ghost var before := Record();
      FollowsItself(before);
      if !hostPacketPending {
        PumpHost();
      }
      ghost var now := Record();
      HostProcess();
      FollowsOn(before, now, Record());
      HeadMet();
    }

    method ServeFirst()
      requires Valid()
      modifies `hostPacketKind, `hostPacketPending, `hostPacketLen, `done, `portReads, `steps, `locals,
               `hostPacketRetryCount, `invalidHostPacketCount, `controllerPacketKind, `controllerPacketLen,
               `controllerPacketPending, `queued, controllerPacket, sdc.tables, sdc.main, sdc.main.event, sdc.compat,
               sdc.compat.event, sdc.tables.trackHandle, sdc.tables.outstanding, sdc.tables.creditHandle,
               sdc.tables.creditCount, host`rxSelect, host`suspectPacketCount, host`fed, host`rxChunkLen,
               host`rxChunkOffset, host`rxOctetCount, host`rxErrorCount, host`rejectedMark, host`suspectClearCount,
               host`droppedPacketCount, host`rxPacketCount, host`fates, host.rxChunk, host.parser,
               host.parser.buffer, `portWrites, `writes, host`txStreamLen, host`txStreamOffset, host`txErrorCount,
               host`txBusyCount, host`txOctetCount, host`emitted, `syncActive, `matched, `noise, `lead,
               host`flushedOctetCount, host`open, host`start, `out, `unsendableControllerPacketCount, sdc,
               sdc.heldPacket, host`txOversizeCount, host`accepted, host.txStream, host`txSelect
      ensures Valid() && Follows(old(Record()), Record())
      ensures old(!hostPacketPending && !syncActive && host.open) ==> Moved(old(Record()), Record())
      ensures HeadServed()
      ensures WaitingLeft()
      ensures SlotFreed()
    {
      hide Valid;
      hide Ready;
      hide Waiting;
      hide InLine;
      hide Departure;
      hide Resolved;
      hide Offers;
      hide First;
      hide Fresh;
      hide Follows;
      hide Moved;
      hide Record;
      ghost var before := Record();
      OneForHost();
      ServeHost();
      OneInLine();
      ghost var now := Record();
      var more := ServeController();
      FollowsOn(before, now, Record());
    }

    /** With the slot free a command answered here can be answered. */
    lemma LocalIsReady()
      ensures forall p :: AnsweredHere(core, p) && !controllerPacketPending ==> p in Ready()
    {
      hide Accepts;
    }

    method ServeRest()
      requires Valid()
      modifies `hostPacketKind, `hostPacketPending, `hostPacketLen, `done, `portReads, `steps, `locals,
               `hostPacketRetryCount, `invalidHostPacketCount, `controllerPacketKind, `controllerPacketLen,
               `controllerPacketPending, `queued, controllerPacket, sdc.tables, sdc.main, sdc.main.event, sdc.compat,
               sdc.compat.event, sdc.tables.trackHandle, sdc.tables.outstanding, sdc.tables.creditHandle,
               sdc.tables.creditCount, host`rxSelect, host`suspectPacketCount, host`fed, host`rxChunkLen,
               host`rxChunkOffset, host`rxOctetCount, host`rxErrorCount, host`rejectedMark, host`suspectClearCount,
               host`droppedPacketCount, host`rxPacketCount, host`fates, host.rxChunk, host.parser,
               host.parser.buffer, `portWrites, `writes, host`txStreamLen, host`txStreamOffset, host`txErrorCount,
               host`txBusyCount, host`txOctetCount, host`emitted, `out, `unsendableControllerPacketCount, sdc,
               sdc.heldPacket, host`txOversizeCount, host`accepted, host.txStream, host`txSelect, `processAgain
      ensures Valid() && Follows(old(Record()), Record()) && (controllerPacketPending ==> Blocked())
      ensures HeadServed()
      ensures processAgain && !old(processAgain) ==> |out| >= |old(out)| + 15
    {
      hide Valid;
      hide Blocked;
      hide Offers;
      hide First;
      hide Fresh;
      hide Waiting;
      hide Departure;
      hide Follows;
      hide Moved;
      hide Record;
      hide InLine;
      hide Ready;
      hide Resolved;
      ghost var before := Record();
      ServeHostAgain();
      ghost var now := Record();
      Burst();
      FollowsOn(before, now, Record());
    }

    /**
     The worker's pass. What the port gives comes in, what it takes goes out; the host's next
     packet has its outcome if it can have it now, and the packet waiting for the host leaves
     if the transport is free.
     */
    method Process()
      requires Valid()
      modifies `hostPacketKind, `hostPacketPending, `hostPacketLen, `done, `portReads, `steps, `locals,
               `hostPacketRetryCount, `invalidHostPacketCount, `controllerPacketKind, `controllerPacketLen,
               `controllerPacketPending, `queued, controllerPacket, sdc.tables, sdc.main, sdc.main.event, sdc.compat,
               sdc.compat.event, sdc.tables.trackHandle, sdc.tables.outstanding, sdc.tables.creditHandle,
               sdc.tables.creditCount, host`rxSelect, host`suspectPacketCount, host`fed, host`rxChunkLen,
               host`rxChunkOffset, host`rxOctetCount, host`rxErrorCount, host`rejectedMark, host`suspectClearCount,
               host`droppedPacketCount, host`rxPacketCount, host`fates, host.rxChunk, host.parser,
               host.parser.buffer, `portWrites, `writes, host`txStreamLen, host`txStreamOffset, host`txErrorCount,
               host`txBusyCount, host`txOctetCount, host`emitted, `syncActive, `matched, `noise, `lead,
               host`flushedOctetCount, host`open, host`start, `out, `unsendableControllerPacketCount, sdc,
               sdc.heldPacket, host`txOversizeCount, host`accepted, host.txStream, host`txSelect, `processAgain
      ensures Valid() && Follows(old(Record()), Record())
      ensures Line() == old(Line()) + Heard(world.rx, old(portReads), portReads)
      ensures host.emitted == old(host.emitted) + Said(world.tx, writes, |old(writes)|)
      ensures old(!hostPacketPending && !syncActive && host.open) ==> Moved(old(Record()), Record())
      ensures HeadServed() && LocalServed()
      ensures WaitingLeft()
      ensures controllerPacketPending ==> Blocked()
      ensures processAgain ==> |out| >= |old(out)| + 15
    {
      hide Valid;
      hide Ready;
      hide Waiting;
      hide InLine;
      hide Line;
      hide Blocked;
      hide Departure;
      hide Resolved;
      hide Follows;
      hide Moved;
      hide Record;
      hide Heard;
      hide Said;
      ghost var before := Record();
      Recorded();
      processAgain := false;
      ServeFirst();
      LocalIsReady();
      ghost var now := Record();
      Recorded();
      FollowsGrows(before, now);
      ServeRest();
      FollowsOn(before, now, Record());
      FollowsGrows(now, Record());
      Recorded();
      PortIsFollowed();
    }

    /** While the epochs last, what comes in is what the port gives, and what goes out is what it takes. */
    twostate lemma PortIsFollowed()
      requires old(Valid()) && Valid() && Follows(old(Record()), Record())
      ensures Line() == old(Line()) + Heard(world.rx, old(portReads), portReads)
      ensures host.emitted == old(host.emitted) + Said(world.tx, writes, |old(writes)|)
    {
      hide TP.Transport.Valid;
      hide SL.Layer.Valid;
      hide HostSide;
      hide LocalSide;
      hide ControllerSide;
      hide SyncSide;
      hide StepSide;
      hide Line;
      hide Heard;
      hide Said;
      HeardJoins(world.rx, heardFrom, old(portReads), portReads);
      SaidJoins(world.tx, old(writes), writes, saidFrom);
      TP.Associates(base, Heard(world.rx, heardFrom, old(portReads)), Heard(world.rx, old(portReads), portReads));
    }

    /** The line has been idle: a suspect half-read packet is thrown away, and a receive epoch begins. */
    method Idle()
      requires Valid()
      modifies `lead, `base, `heardFrom, host`rejectedMark, host`resyncCount, host`rxChunkLen, host`rxChunkOffset,
               host`start, host`fed, host.parser
      ensures Valid() && host.parser.Pending() == old(host.parser.Pending())
      ensures host.resyncCount == old(host.resyncCount)
                + if old(host.parser.IsMidPacket() && host.Suspect()) then 1 else 0
      ensures Grows(old(Record()), Record())
      ensures host.resyncCount == old(host.resyncCount) ==> Follows(old(Record()), Record())
      ensures if old(host.parser.IsMidPacket() && host.Suspect()) then Line() == [] else Line() == old(Line())
    {
      hide TP.Transport.RxValid;
      hide TP.Transport.TxValid;
      hide SL.Layer.Valid;
      hide HostSide;
      hide LocalSide;
      hide ControllerSide;
      hide SyncSide;
      hide HearSide;
      hide LeadSide;
      hide SaySide;
      hide StepSide;
      hide Line;
      hide Follows;
      hide Moved;
      hide Record;
      hide Grows;
      IdleLine();
      PacketsUntouched();
      if host.resyncCount == old(host.resyncCount) {
        LineFollows();
      }
    }

    method IdleLine()
      requires host.Valid() && SyncSide() && HearSide() && LeadSide()
      modifies `lead, `base, `heardFrom, host`rejectedMark, host`resyncCount, host`rxChunkLen, host`rxChunkOffset,
               host`start, host`fed, host.parser
      ensures host.Valid() && SyncSide() && HearSide() && LeadSide()
      ensures host.parser.Pending() == old(host.parser.Pending()) && old(host.rejectedMark) <= host.rejectedMark
      ensures host.resyncCount == old(host.resyncCount)
                + if old(host.parser.IsMidPacket() && host.Suspect()) then 1 else 0
      ensures if old(host.parser.IsMidPacket() && host.Suspect()) then Line() == []
              else Line() == old(Line()) && unchanged(`lead, `base, `heardFrom, host`start, host`fed)
    {
      hide TP.Transport.RxValid;
      hide TP.Transport.TxValid;
      hide TP.Transport.Received;
      hide SS.Longest;
      hide Heard;
      var before := host.resyncCount;
      host.Idle();
      if host.resyncCount != before {
        BeginHearing();
      }
    }

    /** Some passes without an octet from the line make it idle, once. */
    method ResyncOnIdle()
      requires Valid()
      modifies `linkIdleOctets, `linkIdlePasses, `lead, `base, `heardFrom, host`rejectedMark, host`resyncCount,
               host`rxChunkLen, host`rxChunkOffset, host`start, host`fed, host.parser
      ensures Valid() && linkIdleOctets == host.rxOctetCount
      ensures linkIdlePasses == if host.rxOctetCount != old(linkIdleOctets) then 0
                                else if old(linkIdlePasses) < 4 then old(linkIdlePasses) + 1
                                else old(linkIdlePasses)
      ensures Grows(old(Record()), Record())
      ensures if host.resyncCount == old(host.resyncCount)
              then Follows(old(Record()), Record()) && Line() == old(Line())
              else host.resyncCount == old(host.resyncCount) + 1 && Line() == []
      ensures host.resyncCount > old(host.resyncCount) ==>
                host.rxOctetCount == old(linkIdleOctets) && old(linkIdlePasses) == 3
      ensures (old(host.parser.IsMidPacket() && host.Suspect() && linkIdlePasses == 3)
               && host.rxOctetCount == old(linkIdleOctets))
              ==> (host.resyncCount == old(host.resyncCount) + 1 && Line() == [])
    {
      hide Valid;
      hide Line;
      hide Follows;
      hide Moved;
      hide Record;
      hide Grows;
      FollowsItself(Record());
      PacketsUntouched();
      if host.rxOctetCount != linkIdleOctets {
        linkIdleOctets, linkIdlePasses := host.rxOctetCount, 0;
        return;
      }
      if linkIdlePasses < IDLE_PASSES {
        linkIdlePasses := linkIdlePasses + 1;
        if linkIdlePasses == IDLE_PASSES {
          Idle();
        }
      }
    }

    /**
     One round of the worker. Unless a half-read packet was thrown away for an idle line, all
     that a pass promises of the line holds; what it promises of the packets always does.
     */
    method HostPass() returns (again: bool)
      requires Valid()
      modifies `hostPacketKind, `hostPacketPending, `hostPacketLen, `done, `portReads, `steps, `locals,
               `hostPacketRetryCount, `invalidHostPacketCount, `controllerPacketKind, `controllerPacketLen,
               `controllerPacketPending, `queued, controllerPacket, sdc.tables, sdc.main, sdc.main.event, sdc.compat,
               sdc.compat.event, sdc.tables.trackHandle, sdc.tables.outstanding, sdc.tables.creditHandle,
               sdc.tables.creditCount, host`rxSelect, host`suspectPacketCount, host`fed, host`rxChunkLen,
               host`rxChunkOffset, host`rxOctetCount, host`rxErrorCount, host`rejectedMark, host`suspectClearCount,
               host`droppedPacketCount, host`rxPacketCount, host`fates, host.rxChunk, host.parser,
               host.parser.buffer, `portWrites, `writes, host`txStreamLen, host`txStreamOffset, host`txErrorCount,
               host`txBusyCount, host`txOctetCount, host`emitted, `syncActive, `matched, `noise, `lead,
               host`flushedOctetCount, host`open, host`start, `out, `unsendableControllerPacketCount, sdc,
               sdc.heldPacket, host`txOversizeCount, host`accepted, host.txStream, host`txSelect, `processAgain,
               `linkIdleOctets, `linkIdlePasses, `base, `heardFrom, host`resyncCount
      ensures Valid() && again == processAgain && HeadServed() && LocalServed() && WaitingLeft()
      ensures linkIdleOctets == host.rxOctetCount
      ensures linkIdlePasses == if host.rxOctetCount != old(linkIdleOctets) then 0
                                else if old(linkIdlePasses) < 4 then old(linkIdlePasses) + 1
                                else old(linkIdlePasses)
      ensures host.resyncCount > old(host.resyncCount) ==> old(linkIdlePasses) == 3
      ensures old(!hostPacketPending && !syncActive && host.open) ==> Moved(old(Record()), Record())
      ensures Grows(old(Record()), Record())
      ensures host.emitted == old(host.emitted) + Said(world.tx, writes, |old(writes)|)
      ensures if host.resyncCount == old(host.resyncCount) then
                && Follows(old(Record()), Record())
                && Line() == old(Line()) + Heard(world.rx, old(portReads), portReads)
              else host.resyncCount == old(host.resyncCount) + 1 && Line() == []
    {
      hide HeadServed;
      hide LocalServed;
      hide WaitingLeft;
      hide Valid;
      hide Ready;
      hide Waiting;
      hide InLine;
      hide Line;
      hide Blocked;
      hide Heard;
      hide Said;
      hide Follows;
      hide Moved;
      hide Record;
      hide Departure;
      hide Resolved;
      hide Grows;
      ghost var before := Record();
      Process();
      ghost var now := Record();
      FollowsGrows(before, now);
      again := processAgain;
      ResyncOnIdle();
      GrowsOn(before, now, Record());
      if host.resyncCount == old(host.resyncCount) {
        FollowsOn(before, now, Record());
      }
    }

    // ---- End to end ----

    /**
     Host to controller. What the port gave is what came in, and the parser has been fed all
     but the rest of it; the packets of that are, in order and unaltered, those dropped as
     suspect, those with their outcome, the one retained and the one still in the parser; and
     the accepted ones are, once each, what the steps of the routing layer took.
     */
    lemma HostPacketsAreAccountedFor()
      requires Valid() && !syncActive
      ensures lead + host.Received() == base + Heard(world.rx, heardFrom, portReads) && host.fed <= host.Received()
      ensures var whole := OneShot(host.parser.buffer.Length, host.fed);
              && TP.Packets(host.fates) + host.parser.Pending() == host.start.released + whole.packets
              && TP.TakenOf(host.fates) == DonePackets(done) + Retained()
      ensures lead == [] || (SS.FirstReset(noise) && lead + SS.RESET == noise)
      ensures TP.AllSuspect(host.filter, host.fates)
      ensures TP.Counted(host.parser.buffer.Length, host.start, host.fed, host.fates)
      ensures forall d :: d in done ==> d.Discarded? || d == Resolved(core, d.packet)
      ensures AcceptedOf(done) == SL.TakenInAll(sdc.Built(), sdc.history) && AllAnsweredBy(world, sdc.history)
      ensures LocalsOf(queued) == Replies(world, core, controllerPacket.Length, AnsweredOf(done))
    {
      hide OneShot;
      hide Heard;
      host.PacketsAreAccountedFor();
    }

    /**
     Controller to host. What the steps of the routing layer gave is, in order, once each and
     adapted only to the release, what was queued, and the one packet held; what was queued
     was sent, could never be sent, was dropped at close, or waits; and what the port took is
     the frames of what was sent, up to what the transport still has to write.
     */
    lemma ControllerPacketsAreAccountedFor()
      requires Valid()
      ensures Originals(queued) + sdc.Held() == SL.GivenInAll(sdc.Built(), sdc.history)
      ensures AllAnsweredBy(world, sdc.history)
      ensures AllReady(core, queued) && AllFit(out)
      ensures QueuedPackets(queued) == OutPackets(out) + Waiting()
      ensures epoch <= |out| && saidFrom <= |writes|
      ensures Said(world.tx, writes, saidFrom) + host.Unsent() == Frames(SentOf(out[epoch..]))
    {
      hide Frames;
      hide Said;
    }

    /**
     A host that can hold 1024 octets reads, from what its port has taken so far, exactly the
     first of the packets sent, with nothing invalid and nothing too long; and all of them
     once nothing is left to write.
     */
    lemma HostReadsWhatWasSent(cap: nat)
      requires Valid() && cap >= 1024
      ensures epoch <= |out|
      ensures var o := Parse(cap, AtType, Said(world.tx, writes, saidFrom));
              && o.packets <= SentOf(out[epoch..]) && o.invalid == 0 && o.oversize == 0
              && (host.txStreamLen == 0 ==> o == Outcome(AtType, SentOf(out[epoch..]), 0, 0))
    {
      hide Frames;
      hide Said;
      hide Parse;
      hide SelfDelimiting;
      host.EmittedIsPrefix();
      SentIsReady(core, queued, out, Waiting(), epoch);
      TP.PrefixParses(cap, SentOf(out[epoch..]), host.emitted);
    }
  }

  /** A chunk that ends the first Reset frame: what came before the frame, the frame, and the rest. */
  lemma CutAtReset(noise: seq<byte>, data: seq<byte>, end: nat)
    requires end <= |data| && SS.FirstReset(noise + data[..end])
    ensures var scanned := noise + data[..end];
            && scanned[..|scanned| - 4] + SS.RESET == scanned
            && scanned[..|scanned| - 4] + (SS.RESET + data[end..]) == noise + data
  {
    var scanned := noise + data[..end];
    assert SS.RESET[..4] == SS.RESET;
    assert scanned == scanned[..|scanned| - 4] + scanned[|scanned| - 4..];
    assert scanned + data[end..] == noise + data;
  }
}
