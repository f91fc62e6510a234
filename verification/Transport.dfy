/**
 The byte-stream transport in packet mode: octets of a UART or CDC port become packets
 held one at a time for a reader, packets become framed octets written as far as the port
 takes them. An epoch runs from one reset of the receive side to the next.
 */
module Transport {
  import opened Octets
  import opened H4
  import opened H4Parser
  import StartupSync

  const CHUNK := 64
  const TX_SIZE := 1025
  const RX_PASSES := 64
  const NONE_TAKEN: nat -> bool := _ => false
  const TX_PASSES := 8

  /** One read of the port: an error, or octets (none of them: nothing there). */
  datatype PortRead = Failed | Octets(data: seq<byte>)

  /** The port never returns more than it was asked for. */
  ghost predicate ReadsFit(port: nat -> PortRead) {
    forall i: nat :: port(i).Octets? ==> |port(i).data| <= CHUNK
  }

  ghost predicate WritesFit(port: (nat, nat) -> int) {
    forall i: nat, n: nat :: port(i, n) <= n
  }

  /** Everything the first `n` reads gave. */
  function Gathered(port: nat -> PortRead, n: nat): seq<byte> {
    if n == 0 then []
    else Gathered(port, n - 1) + if port(n - 1).Octets? then port(n - 1).data else []
  }

  /** What the port takes of `stream` over the passes from `pass` on; an error or a busy port ends them. */
  function Took(port: (nat, nat) -> int, stream: seq<byte>, pass: nat): (octets: seq<byte>)
    ensures octets <= stream
    decreases TX_PASSES - pass
  {
    if pass >= TX_PASSES || stream == [] then []
    else
      var sent := port(pass, |stream|);
      if sent <= 0 then []
      else if sent >= |stream| then stream
      else stream[..sent] + Took(port, stream[sent..], pass + 1)
  }

  function Total(cuts: seq<nat>): nat {
    if cuts == [] then 0 else cuts[0] + Total(cuts[1..])
  }

  /** `cuts` are the port's answers from `pass` on, each to an offer of all that is left. */
  predicate Cuts(port: (nat, nat) -> int, length: nat, pass: nat, cuts: seq<nat>)
    decreases |cuts|
  {
    cuts == []
    || (&& 0 < cuts[0] <= length && port(pass, length) == cuts[0]
        && Cuts(port, length - cuts[0], pass + 1, cuts[1..]))
  }

  lemma TookNothing(port: (nat, nat) -> int, stream: seq<byte>, pass: nat)
    requires WritesFit(port)
    ensures pass >= 8 || stream == [] || port(pass, |stream|) <= 0 ==> Took(port, stream, pass) == []
    ensures port(pass, |stream|) <= |stream|
  {
  }

  /**
   What is taken is all that the port will take: the answers to at most eight offers, each of
   all that is left, until nothing is left, an answer is nothing or an error, or the eighth.
   */
  lemma {:induction false} TookIsAllItWill(port: (nat, nat) -> int, stream: seq<byte>, pass: nat)
    returns (cuts: seq<nat>)
    requires WritesFit(port) && pass <= 8
    ensures pass + |cuts| <= 8 && Cuts(port, |stream|, pass, cuts) && Total(cuts) == |Took(port, stream, pass)|
    ensures var left: nat := |stream| - |Took(port, stream, pass)|;
            left == 0 || pass + |cuts| == 8 || port(pass + |cuts|, left) <= 0
    decreases 8 - pass
  {
    hide Took;
    TookNothing(port, stream, pass);
    cuts := [];
    if pass < 8 && stream != [] && port(pass, |stream|) > 0 {
      var sent: nat := port(pass, |stream|);
      TookRest(port, stream, pass, sent);
      var rest := TookIsAllItWill(port, stream[sent..], pass + 1);
      cuts := [sent] + rest;
      assert cuts[1..] == rest;
    }
  }

  /**
   A packet dropped as suspect carries the reason: how many indicators had been rejected
   by then, and how many of them had been forgiven.
   */
  datatype Fate = Taken(packet: Packet) | Dropped(packet: Packet, rejected: nat, forgiven: nat)

  function Packets(fates: seq<Fate>): seq<Packet> {
    if fates == [] then [] else Packets(fates[..|fates| - 1]) + [fates[|fates| - 1].packet]
  }

  function Drops(fates: seq<Fate>): nat {
    if fates == [] then 0
    else Drops(fates[..|fates| - 1]) + if fates[|fates| - 1].Dropped? then 1 else 0
  }

  lemma FatesSnoc(fates: seq<Fate>, f: Fate)
    ensures Packets(fates + [f]) == Packets(fates) + [f.packet]
    ensures Drops(fates + [f]) == Drops(fates) + if f.Dropped? then 1 else 0
  {
    assert (fates + [f])[..|fates|] == fates;
  }

  /** Packets a reader took from the transport. */
  function TakenOf(fates: seq<Fate>): seq<Packet> {
    if fates == [] then []
    else TakenOf(fates[..|fates| - 1]) + if fates[|fates| - 1].Taken? then [fates[|fates| - 1].packet] else []
  }

  lemma TakenSnoc(fates: seq<Fate>, f: Fate)
    ensures TakenOf(fates + [f]) == TakenOf(fates) + if f.Taken? then [f.packet] else []
  {
    assert (fates + [f])[..|fates|] == fates;
  }

  /** Drops take nothing from the reader. */
  lemma {:induction false} DropsTakeNothing(before: seq<Fate>, after: seq<Fate>)
    requires before <= after && forall k :: |before| <= k < |after| ==> after[k].Dropped?
    ensures TakenOf(after) == TakenOf(before)
    decreases |after|
  {
    if |before| == |after| {
      assert before == after;
    } else {
      DropsTakeNothing(before, after[..|after| - 1]);
    }
  }

  /** What the filter keeps out: commands it rejects, and nothing without a filter. */
  predicate Filtered(filter: Option<Packet -> bool>, p: Packet) {
    p.kind == Command && filter.Some? && !filter.value(p)
  }

  /** Every packet dropped was a command the filter keeps out, with a rejected indicator before it not forgiven. */
  ghost predicate AllSuspect(filter: Option<Packet -> bool>, fates: seq<Fate>) {
    forall k :: 0 <= k < |fates| && fates[k].Dropped? ==>
      Filtered(filter, fates[k].packet) && fates[k].forgiven < fates[k].rejected
  }

  /** In this epoch the rejected indicators of a drop are those of the stream before its packet. */
  ghost predicate Counted(cap: nat, start: Reader, fed: seq<byte>, fates: seq<Fate>)
    requires cap >= 4
  {
    start.state == AtType && forall k :: |start.released| <= k < |fates| && fates[k].Dropped? ==>
      fates[k].rejected == start.invalid + RejectedBefore(cap, AtType, fed, k - |start.released|)
  }

  /** Drops from the `from`-th on had no less forgiven than `mark`. */
  predicate ForgivenSince(fates: seq<Fate>, from: nat, mark: nat) {
    forall k :: from <= k < |fates| && fates[k].Dropped? ==> mark <= fates[k].forgiven
  }

  class Transport {
    const parser: Parser
    const rxChunk: array<byte>
    const txStream: array<byte>
    const filter: Option<Packet -> bool>
    var rxChunkLen: nat
    var rxChunkOffset: nat
    var txStreamLen: nat
    var txStreamOffset: nat
    var open: bool
    var rxSelect: Option<Kind>
    var txSelect: Option<Kind>
    var rejectedMark: nat
    var rxErrorCount: nat
    var txErrorCount: nat
    var txBusyCount: nat
    var txOversizeCount: nat
    var rxOctetCount: nat
    var txOctetCount: nat
    var rxPacketCount: nat
    var resyncCount: nat
    var suspectPacketCount: nat
    var droppedPacketCount: nat
    var suspectClearCount: nat
    var flushedOctetCount: nat

    /** The parser when the epoch began, and the octets it has been fed since. */
    ghost var start: Reader
    ghost var fed: seq<byte>
    /** What became of every packet handed over by the parser. */
    ghost var fates: seq<Fate>
    /** Packets accepted for sending and octets written in this epoch of the send side. */
    ghost var accepted: seq<Packet>
    ghost var emitted: seq<byte>

    ghost predicate Valid()
      reads `rxChunkLen, `rxChunkOffset, `start, `fed, `fates, `droppedPacketCount, `rxPacketCount, `rejectedMark
      reads `txStreamLen, `txStreamOffset, `accepted, `emitted
      reads parser, parser.buffer, rxChunk, txStream
    {
      && parser.Valid() && !parser.hasHandler
      && rxChunk.Length == CHUNK && txStream.Length == TX_SIZE
      && rxChunk != txStream && rxChunk != parser.buffer && txStream != parser.buffer
      && RxValid() && DropsValid() && TxValid()
    }

    /** The framed octets still to be written. */
    ghost function Unsent(): seq<byte>
      reads `txStreamLen, `txStreamOffset, txStream
    {
      if txStreamOffset <= txStreamLen <= txStream.Length then txStream[txStreamOffset..txStreamLen] else []
    }

    /** Everything received in the epoch: what the parser was fed, then what is still in the chunk. */
    ghost function Received(): seq<byte>
      reads `rxChunkLen, `rxChunkOffset, `fed, rxChunk
    {
      if rxChunkOffset <= rxChunkLen <= rxChunk.Length then fed + rxChunk[rxChunkOffset..rxChunkLen] else fed
    }

    /**
     Parser input is exactly the received octets, in order: what has been read of them is
     in the parser or in packets with a recorded fate, the rest is still in the chunk.
     */
    ghost predicate RxValid()
      reads `rxChunkLen, `rxChunkOffset, `start, `fed, `fates, `droppedPacketCount, `rxPacketCount
      reads parser, parser.buffer, rxChunk
      requires parser.Valid() && rxChunk.Length == CHUNK
    {
      && rxChunkOffset <= rxChunkLen <= CHUNK
      && start.state == AtType && start.pending == []
      && Reads(parser.buffer.Length, start, fed, parser.Model())
      && parser.released == Packets(fates)
      && droppedPacketCount == Drops(fates) && rxPacketCount == |fates| - Drops(fates)
    }

    /** What is dropped is suspect: filtered, with an indicator before it rejected and not forgiven. */
    ghost predicate DropsValid()
      reads `rejectedMark, `start, `fed, `fates, parser, parser.buffer
      requires parser.Valid()
    {
      && rejectedMark <= parser.invalidTypeCount && start.state == AtType
      && AllSuspect(filter, fates) && Counted(parser.buffer.Length, start, fed, fates)
      && (parser.mode == DeliverMode ==> Completes(parser.buffer.Length, AtType, fed))
    }

    /** Octets written are the frames of the accepted packets, up to what is still in the stream buffer. */
    ghost predicate TxValid()
      reads `txStreamLen, `txStreamOffset, `accepted, `emitted, txStream
      requires txStream.Length == TX_SIZE
    {
      && txStreamOffset <= txStreamLen <= TX_SIZE
      && (txStreamLen > 0 ==> txStreamOffset < txStreamLen)
      && emitted + txStream[txStreamOffset..txStreamLen] == Frames(accepted)
    }

    constructor (passive: Parser, suspectFilter: Option<Packet -> bool>)
      requires passive.Valid() && !passive.hasHandler && passive.Model() == Reader(AtType, [], [], 0, 0)
      ensures Valid() && parser == passive && !open && filter == suspectFilter
      ensures fates == [] && Received() == [] && accepted == [] && emitted == []
      ensures fresh(rxChunk) && fresh(txStream)
    {
      parser, filter := passive, suspectFilter;
      rxChunk := new byte[CHUNK](_ => 0);
      txStream := new byte[TX_SIZE](_ => 0);
      rxChunkLen, rxChunkOffset, txStreamLen, txStreamOffset := 0, 0, 0, 0;
      open, rxSelect, txSelect, rejectedMark := false, None, None, 0;
      rxErrorCount, txErrorCount, txBusyCount, txOversizeCount := 0, 0, 0, 0;
      rxOctetCount, txOctetCount, rxPacketCount, resyncCount := 0, 0, 0, 0;
      suspectPacketCount, droppedPacketCount, suspectClearCount, flushedOctetCount := 0, 0, 0, 0;
      start, fed, fates, accepted, emitted := passive.Model(), [], [], [], [];
      new;
      ReadsNothing(parser.buffer.Length, start, fed);
    }

    predicate Suspect()
      reads `rejectedMark, parser
    {
      parser.invalidTypeCount != rejectedMark
    }

    /** A packet waits for its reader, and will not be dropped as suspect. */
    ghost predicate Waits()
      reads `rejectedMark, parser, parser.buffer
    {
      parser.Valid() && parser.mode == DeliverMode && !(Suspect() && Filtered(filter, parser.Pending()[0]))
    }

    /** The parser's waiting packet has met its fate. */
    method ReleaseAs(taken: bool)
      requires Valid() && parser.mode == DeliverMode
      requires taken || (Suspect() && Filtered(filter, parser.Pending()[0]))
      modifies this`droppedPacketCount, this`rxPacketCount, this`fates, parser
      ensures Valid() && parser.Pending() == []
      ensures var p := old(parser.Pending())[0];
              fates == old(fates) + [if taken then Taken(p) else Dropped(p, parser.invalidTypeCount, rejectedMark)]
      ensures parser.Model() == old(parser.Model()).(released := old(parser.released + parser.Pending()), pending := [])
    {
      hide Reads;
      hide Packets;
      hide Drops;
      hide Completes;
      hide Counted;
      hide AllSuspect;
      hide TxValid;
      ghost var p := parser.Pending()[0];
      ghost var fate := if taken then Taken(p) else Dropped(p, parser.invalidTypeCount, rejectedMark);
      if taken {
        rxPacketCount := rxPacketCount + 1;
      } else {
        droppedPacketCount := droppedPacketCount + 1;
      }
      ReleasedReads(parser.buffer.Length, start, fed, parser.Model());
      FatesSnoc(fates, fate);
      OneMoreFate(parser.buffer.Length, start, fed, fates, parser.Model(), filter, fate);
      fates := fates + [fate];
      parser.ReleasePending();
    }

    /** Drop the packet in hand if it is suspect and the filter rejects it. */
    method DropPendingSuspect() returns (dropped: bool)
      requires Valid()
      modifies this`droppedPacketCount, this`rxPacketCount, this`fates, parser
      ensures Valid()
      ensures dropped <==>
                && old(parser.Pending()) != [] && old(parser.invalidTypeCount != rejectedMark)
                && var p := old(parser.Pending())[0]; p.kind == Command && filter.Some? && !filter.value(p)
      ensures fates == old(fates)
                + if dropped then [Dropped(old(parser.Pending())[0], parser.invalidTypeCount, rejectedMark)] else []
      ensures dropped ==> parser.Pending() == []
      ensures !dropped ==> parser.Model() == old(parser.Model()) && parser.mode == old(parser.mode)
    {
      hide RxValid;
      hide DropsValid;
      hide TxValid;
      assert fates + [] == fates;
      if !parser.DeliveryPending() {
        return false;
      }
      var p := Packet(parser.kind.value, parser.buffer[..parser.packetLen]);
      if !Suspect() || p.kind != Command || filter.None? || filter.value(p) {
        return false;
      }
      ReleaseAs(false);
      return true;
    }

    /** Give the parser what is left of the chunk. */
    method FeedChunk()
      requires Valid()
      modifies this`rxChunkOffset, this`fed, parser, parser.buffer
      ensures Valid() && Received() == old(Received()) && old(fed) <= fed
      ensures parser.mode == DeliverMode || rxChunkOffset == rxChunkLen
    {
      hide Reads;
      hide Packets;
      hide Drops;
      hide Parse;
      hide H4Parser.Fed;
      hide Completes;
      hide Counted;
      hide AllSuspect;
      hide TxValid;
      ghost var mid := parser.Model();
      var data := rxChunk[rxChunkOffset..rxChunkLen];
      var n := parser.Feed(data, NONE_TAKEN);
      FedReads(parser.buffer.Length, start, fed, mid, data, Answers(parser.hasHandler, NONE_TAKEN), n, parser.Model());
      FedCounts(parser.buffer.Length, start, fed, fates, mid, data, Answers(parser.hasHandler, NONE_TAKEN), n,
                parser.Model());
      Moved(fed, rxChunk[..], rxChunkOffset, rxChunkLen, n);
      fed := fed + data[..n];
      rxChunkOffset := rxChunkOffset + n;
    }

    /** The next octets of the port, once the last chunk is used up. */
    method TakeChunk(data: seq<byte>)
      requires Valid() && rxChunkOffset == rxChunkLen && 0 < |data| <= CHUNK
      modifies this`rxChunkLen, this`rxChunkOffset, this`rxOctetCount, rxChunk
      ensures Valid() && Received() == old(Received()) + data && rxOctetCount == old(rxOctetCount) + |data|
    {
      hide Reads;
      hide Packets;
      hide Drops;
      hide TxValid;
      hide DropsValid;
      rxOctetCount := rxOctetCount + |data|;
      LoadChunk(data, 0);
      AllRead(fed, old(rxChunk[..]), old(rxChunkOffset), data);
    }

    /** What was rejected so far is forgiven. */
    method Forgive()
      requires Valid()
      modifies this`rejectedMark
      ensures Valid() && rejectedMark == parser.invalidTypeCount
    {
      hide RxValid;
      hide TxValid;
      hide Counted;
      hide AllSuspect;
      hide Completes;
      rejectedMark := parser.invalidTypeCount;
    }

    /** Nothing on the line and nothing half read: what was rejected before is forgiven. */
    method NoteSilence()
      requires Valid()
      modifies this`rejectedMark, this`suspectClearCount
      ensures Valid()
      ensures rejectedMark == if parser.IsMidPacket() then old(rejectedMark) else parser.invalidTypeCount
    {
      hide Valid;
      if !parser.IsMidPacket() && Suspect() {
        Forgive();
        suspectClearCount := suspectClearCount + 1;
      }
    }

    /** Packets dropped on the way, each for the reason that drops packets, and with what was forgiven before. */
    twostate predicate OnlyDropped()
      reads `fates, `rejectedMark
    {
      && old(fates) <= fates
      && forall k :: |old(fates)| <= k < |fates| ==>
           fates[k].Dropped? && Filtered(filter, fates[k].packet) && fates[k].forgiven == old(rejectedMark)
    }

    /** Deal with the packet in hand and the octets in the chunk. True when the port may be read in this pass. */
    method Settle() returns (next: Next)
      requires Valid()
      modifies this`rxChunkLen, this`rxChunkOffset, this`fed, this`droppedPacketCount, this`rxPacketCount, this`fates,
               parser, parser.buffer
      ensures Valid() && Received() == old(Received()) && old(fed) <= fed && OnlyDropped()
      ensures next == ReadPort ==> rxChunkOffset == rxChunkLen && parser.Pending() == []
      ensures next == Stop ==> Waits()
      ensures |fates| == |old(fates)| + if next == Again then 1 else 0
      ensures next == Again ==> parser.Pending() == []
      ensures old(Waits()) ==> next == Stop && Waits() && parser.Model() == old(parser.Model()) && fates == old(fates)
    {
      hide RxValid;
      hide DropsValid;
      hide TxValid;
      if !parser.DeliveryPending() && rxChunkOffset == rxChunkLen {
        return ReadPort;
      }
      if !parser.DeliveryPending() {
        FeedChunk();
        if !parser.DeliveryPending() {
          EmptyChunk();
          return ReadPort;
        }
      }
      var dropped := DropPendingSuspect();
      return if dropped then Again else Stop;
    }

    method EmptyChunk()
      requires Valid() && rxChunkOffset == rxChunkLen
      modifies this`rxChunkLen, this`rxChunkOffset
      ensures Valid() && rxChunkLen == rxChunkOffset == 0 && Received() == old(Received())
    {
      hide Reads;
      hide Packets;
      hide Drops;
      hide TxValid;
      hide DropsValid;
      rxChunkLen, rxChunkOffset := 0, 0;
    }

    /** One read of the port. True when there may be more. */
    method Receive(got: PortRead) returns (more: bool)
      requires Valid() && rxChunkOffset == rxChunkLen && (got.Octets? ==> |got.data| <= CHUNK)
      modifies this`fed, this`rxChunkLen, this`rxChunkOffset, this`rxOctetCount, this`rxErrorCount,
               this`rejectedMark, this`suspectClearCount, rxChunk
      ensures rejectedMark == if got == Octets([]) && !parser.IsMidPacket() then parser.invalidTypeCount
                              else old(rejectedMark)
      ensures old(rejectedMark) <= rejectedMark
      ensures more <==> got.Octets? && got.data != []
      ensures Valid() && fed == old(fed) && Received() == old(Received()) + if got.Octets? then got.data else []
    {
      hide TxValid;
      MarkIsPast();
      hide RxValid;
      hide DropsValid;
      if got.Failed? {
        rxErrorCount := rxErrorCount + 1;
        return false;
      }
      if got.data == [] {
        NoteSilence();
        return false;
      }
      TakeChunk(got.data);
      return true;
    }

    /** The port was read until a packet waits, it had no more, or reads and drops used up the passes. */
    twostate predicate ReadOut(new port: nat -> PortRead, used: nat)
      reads `fates, `rejectedMark, parser, parser.buffer
    {
      || Waits()
      || (used > 0 && (port(used - 1).Failed? || port(used - 1).data == []))
      || (used + |fates| == |old(fates)| + 64 && parser.mode != DeliverMode)
    }

    /** What is forgiven after `used` reads: everything, if the last of them found nothing between two packets. */
    ghost function Forgiven(port: nat -> PortRead, used: nat, before: nat): nat
      reads parser
    {
      if used > 0 && port(used - 1) == Octets([]) && !parser.IsMidPacket() then parser.invalidTypeCount else before
    }

    /**
     Read the port until a packet waits, the port has no more, or the passes run out.
     Whatever the port gives is received, in order, once.
     */
    method ProcessRx(port: nat -> PortRead) returns (used: nat)
      requires Valid() && ReadsFit(port)
      modifies this`fed, this`rxChunkLen, this`rxChunkOffset, this`rxOctetCount, this`rxErrorCount,
               this`rejectedMark, this`suspectClearCount, this`droppedPacketCount, this`rxPacketCount, this`fates,
               rxChunk, parser, parser.buffer
      ensures Valid() && Received() == old(Received()) + Gathered(port, used) && OnlyDropped()
      ensures ReadOut(port, used) && (parser.Pending() != [] ==> Waits())
      ensures old(fed) <= fed && old(rejectedMark) <= rejectedMark == Forgiven(port, used, old(rejectedMark))
      ensures old(Waits()) ==> used == 0 && Waits() && parser.Model() == old(parser.Model()) && fates == old(fates)
    {
      hide Received;
      hide RxValid;
      hide DropsValid;
      hide TxValid;
      hide Waits;
      used := 0;
      for pass := 0 to RX_PASSES
        invariant Valid() && Received() == old(Received()) + Gathered(port, used) && OnlyDropped()
        invariant old(fed) <= fed && rejectedMark == old(rejectedMark)
        invariant used + |fates| == |old(fates)| + pass
        invariant used > 0 ==> port(used - 1).Octets? && port(used - 1).data != []
        invariant pass > 0 ==> !old(Waits()) && parser.Pending() == []
        invariant pass == 0 ==> used == 0 && fates == old(fates) && (old(Waits()) ==> Waits())
        invariant pass == 0 ==> parser.Model() == old(parser.Model())
      {
        var next := Settle();
        if next == Stop {
          return;
        }
        if next == ReadPort {
          var more := Receive(port(used));
          used := used + 1;
          GatheredMore(old(Received()), port, used);
          if !more {
            return;
          }
        }
      }
    }

    /** Start the receive side afresh: chunk, partial packet and waiting packet are forgotten. */
    method ResetRx()
      requires Valid()
      modifies this`rxChunkLen, this`rxChunkOffset, this`start, this`fed, parser
      ensures Valid() && rxChunkLen == rxChunkOffset == 0 && fed == [] && parser.mode == TypeMode
      ensures start == parser.Model() && parser.invalidTypeCount == old(parser.invalidTypeCount)
    {
      hide Parser.View;
      hide Reads;
      hide Parse;
      hide Packets;
      hide Drops;
      hide Counted;
      hide AllSuspect;
      hide Completes;
      hide TxValid;
      rxChunkLen, rxChunkOffset := 0, 0;
      parser.Reset();
      start, fed := parser.Model(), [];
      NothingCounted(parser.buffer.Length, start, fed, fates);
      ReadsNothing(parser.buffer.Length, start, fed);
    }

    /** Nothing left of the stream buffer is part of the next send epoch. */
    method ResetTx()
      requires Valid()
      modifies this`txStreamLen, this`txStreamOffset, this`accepted, this`emitted
      ensures Valid() && txStreamLen == 0 && accepted == [] && emitted == []
    {
      hide RxValid;
      hide DropsValid;
      txStreamLen, txStreamOffset := 0, 0;
      accepted, emitted := [], [];
      assert txStream[0..0] == [];
    }

    /** The port opens: octets printed before this are flushed, and the parser starts between packets. */
    method Open(port: nat -> PortRead) returns (used: nat)
      requires Valid() && ReadsFit(port)
      modifies this`open, this`flushedOctetCount, this`rxChunkLen, this`rxChunkOffset, this`start, this`fed,
               this`rejectedMark, parser, rxChunk
      ensures Valid() && open && Received() == [] && parser.mode == TypeMode && !Suspect()
      ensures used <= 64 && flushedOctetCount == old(flushedOctetCount) + |Gathered(port, used)|
      ensures used == 64 || port(used) == Failed || port(used) == Octets([])
    {
      hide Gathered;
      hide Received;
      hide Valid;
      open := true;
      ResetRx();
      NothingGathered(port);
      used := 0;
      while used < RX_PASSES && port(used).Octets? && port(used).data != []
        invariant open && Valid() && fed == [] && parser.mode == TypeMode && rxChunkLen == rxChunkOffset == 0
        invariant used <= RX_PASSES && flushedOctetCount == old(flushedOctetCount) + |Gathered(port, used)|
        decreases RX_PASSES - used
      {
        flushedOctetCount := flushedOctetCount + |port(used).data|;
        GatheredMore([], port, used + 1);
        assert [] + Gathered(port, used) == Gathered(port, used);
        assert [] + Gathered(port, used + 1) == Gathered(port, used + 1);
        used := used + 1;
      }
      Forgive();
      NothingReceived();
    }

    lemma NothingReceived()
      requires fed == [] && rxChunkLen == rxChunkOffset == 0
      ensures Received() == []
    {
    }

    /** The chunk buffer now holds `data`, unread from `from` on; what it held before is overwritten. */
    method LoadChunk(data: seq<byte>, from: nat)
      requires Valid() && from <= |data| <= CHUNK
      modifies this`rxChunkLen, this`rxChunkOffset, rxChunk
      ensures Valid() && Received() == fed + data[from..]
    {
      hide Reads;
      hide Packets;
      hide Drops;
      hide TxValid;
      hide DropsValid;
      for i := 0 to |data|
        invariant rxChunk[..i] == data[..i]
        modifies rxChunk
      {
        rxChunk[i] := data[i];
      }
      Loaded(rxChunk[..], data, from);
      rxChunkLen, rxChunkOffset := |data|, from;
    }

    /** The port opened with octets that look like a packet's start: they are the first chunk. */
    method OpenWith(data: seq<byte>)
      requires Valid() && 0 < |data| <= CHUNK
      modifies this`open, this`rxChunkLen, this`rxChunkOffset, this`rxOctetCount, rxChunk
      ensures Valid() && open && Received() == fed + data
    {
      hide Valid;
      open := true;
      rxOctetCount := rxOctetCount + |data|;
      LoadChunk(data, 0);
      assert data[0..] == data;
    }

    /** A parser between packets reads one whole frame. */
    method FeedFrame(frame: seq<byte>, ghost p: Packet)
      requires parser.Valid() && !parser.hasHandler && OnePacket(parser.buffer.Length, frame, p)
      requires parser.View() == AtType && parser.Pending() == []
      modifies parser, parser.buffer
      ensures parser.Valid() && parser.Pending() == [p] && parser.released == old(parser.released)
      ensures Reads(parser.buffer.Length, old(parser.Model()), frame, parser.Model())
      ensures Completes(parser.buffer.Length, AtType, frame) && parser.invalidTypeCount >= old(parser.invalidTypeCount)
    {
      hide Reads;
      hide H4Parser.Fed;
      hide OnePacket;
      ghost var before := parser.Model();
      var n := parser.Feed(frame, NONE_TAKEN);
      FrameFed(parser.buffer.Length, frame, p, before, Answers(parser.hasHandler, NONE_TAKEN), n, parser.Model());
    }

    /** At the start of an epoch: the frame comes before anything from the port. */
    method FeedFirst(frame: seq<byte>, ghost p: Packet)
      requires Valid() && fed == []
      requires start == parser.Model()
      requires OnePacket(parser.buffer.Length, frame, p)
      modifies this`fed, parser, parser.buffer
      ensures Valid() && fed == frame && parser.Pending() == [p]
      ensures Received() == frame + old(Received())
    {
      hide Reads;
      hide OnePacket;
      hide Packets;
      hide Drops;
      hide TxValid;
      hide AllSuspect;
      hide Counted;
      NothingCounted(parser.buffer.Length, start, frame, fates);
      FeedFrame(frame, p);
      fed := frame;
      assert [] + rxChunk[rxChunkOffset..rxChunkLen] == rxChunk[rxChunkOffset..rxChunkLen];
    }

    /**
     Startup is over: the parser, untouched since the port was closed, sees the Reset frame,
     and after it the rest of the chunk that ended it.
     */
    method OpenAfterReset(data: seq<byte>, from: nat)
      requires Valid() && parser.mode == TypeMode && from <= |data| <= CHUNK
      modifies this`open, this`fed, this`start, this`rxChunkLen, this`rxChunkOffset, rxChunk, parser, parser.buffer
      ensures Valid() && open && fed == StartupSync.RESET && Received() == StartupSync.RESET + data[from..]
      ensures parser.Pending() == [Packet(Command, [0x03, 0x0C, 0x00])]
    {
      hide RxValid;
      hide DropsValid;
      hide TxValid;
      hide OnePacket;
      hide Reads;
      hide Received;
      BeginEpoch();
      LoadChunk(data, from);
      open := true;
      ResetIsOnePacket(parser.buffer.Length);
      FeedFirst(StartupSync.RESET, Packet(Command, [0x03, 0x0C, 0x00]));
    }

    /** Between packets a new epoch can begin with nothing but this remark. */
    ghost method BeginEpoch()
      requires Valid() && parser.mode == TypeMode
      modifies this`start, this`fed
      ensures Valid() && fed == [] && start == parser.Model()
    {
      hide Packets;
      hide Drops;
      hide Parse;
      hide Reads;
      hide TxValid;
      hide AllSuspect;
      hide Counted;
      hide Completes;
      start, fed := parser.Model(), [];
      NothingCounted(parser.buffer.Length, start, fed, fates);
      ReadsNothing(parser.buffer.Length, start, fed);
    }

    method Close()
      requires Valid()
      modifies this`open, this`rxChunkLen, this`rxChunkOffset, this`start, this`fed, this`rxSelect, this`txSelect,
               this`txStreamLen, this`txStreamOffset, this`accepted, this`emitted, parser
      ensures Valid() && !open && fed == [] && rxChunkLen == 0 && parser.mode == TypeMode
      ensures accepted == [] && emitted == []
      ensures Received() == [] && txStreamLen == 0
    {
      hide Valid;
      hide Received;
      open, rxSelect, txSelect := false, None, None;
      ResetRx();
      ResetTx();
      NothingReceived();
    }

    /**
     The line has been idle: rejected octets are forgiven between packets, and a suspect
     half-read packet is thrown away. A packet waiting for its reader is never lost to it.
     */
    method Idle()
      requires Valid()
      modifies this`rejectedMark, this`resyncCount, this`rxChunkLen, this`rxChunkOffset,
               this`start, this`fed, parser
      ensures Valid() && !Suspect() && old(rejectedMark) <= rejectedMark
      ensures parser.Pending() == old(parser.Pending())
      ensures old(parser.IsMidPacket() && Suspect()) ==>
                resyncCount == old(resyncCount) + 1 && Received() == [] && parser.mode == TypeMode
      ensures !old(parser.IsMidPacket() && Suspect()) ==>
                && resyncCount == old(resyncCount) && Received() == old(Received())
                && fed == old(fed) && start == old(start)
                && parser.Model() == old(parser.Model()) && parser.mode == old(parser.mode)
    {
      hide RxValid;
      hide DropsValid;
      hide TxValid;
      MarkIsPast();
      var suspect := Suspect();
      if !parser.IsMidPacket() {
        Forgive();
        return;
      }
      if !suspect {
        return;
      }
      Forgive();
      ResetRx();
      resyncCount := resyncCount + 1;
    }

    /** A reader asks for a packet of one kind. */
    method StartRx(kind: Kind, port: nat -> PortRead) returns (ready: bool, used: nat)
      requires Valid() && ReadsFit(port)
      modifies `fed, `rxChunkLen, `rxChunkOffset, `rxOctetCount, `rxErrorCount, `rejectedMark, `suspectClearCount,
               `droppedPacketCount, `rxPacketCount, `fates, `rxSelect, rxChunk, parser, parser.buffer
      ensures Valid() && OnlyDropped() && Received() == old(Received()) + Gathered(port, used) && old(fed) <= fed
      ensures open ==> ReadOut(port, used)
      ensures rejectedMark == if open then Forgiven(port, used, old(rejectedMark)) else old(rejectedMark)
      ensures old(rejectedMark) <= rejectedMark && (ready ==> Waits())
      ensures !open ==> !ready && used == 0 && parser.mode == old(parser.mode)
      ensures ready <==> open && parser.Pending() != [] && parser.Pending()[0].kind == kind
      ensures old(Waits()) ==> used == 0 && Waits() && parser.Model() == old(parser.Model()) && fates == old(fates)
      ensures ready ==> rxSelect == Some(kind)
    {
      hide RxValid;
      hide DropsValid;
      hide TxValid;
      used := 0;
      if !open {
        assert Received() + [] == Received();
        return false, 0;
      }
      used := ProcessRx(port);
      if !parser.DeliveryPending() || parser.kind != Some(kind) {
        return false, used;
      }
      rxSelect := Some(kind);
      return true, used;
    }

    /**
     Hand the waiting packet over. The reader's buffer may be the parser's own: then nothing
     is copied, and the packet stays where it was parsed until the parser is fed again.
     */
    method RxData(target: array<byte>) returns (len: nat)
      requires Valid() && target != rxChunk && target != txStream
      modifies this`fates, this`suspectPacketCount, this`droppedPacketCount, this`rxPacketCount, parser, target
      ensures Valid() && parser.Model().state == old(parser.Model().state)
      ensures fed == old(fed) && Received() == old(Received())
      ensures len > 0 ==>
                && old(parser.Pending()) != []
                && var p := old(parser.Pending())[0];
                   && rxSelect == Some(p.kind) && len == |p.body| <= target.Length && target[..len] == p.body
                   && fates == old(fates) + [Taken(p)] && parser.Pending() == []
      ensures len == 0 ==> fates == old(fates) && parser.Model() == old(parser.Model()) && target[..] == old(target[..])
      ensures len > 0 <==> old(parser.Pending()) != [] && rxSelect == Some(old(parser.Pending())[0].kind)
                           && |old(parser.Pending())[0].body| <= target.Length
    {
      hide RxValid;
      hide DropsValid;
      hide TxValid;
      if !parser.DeliveryPending() || parser.kind != rxSelect || parser.packetLen > target.Length {
        return 0;
      }
      len := parser.packetLen;
      if target != parser.buffer {
        CopyPacket(target, len);
      }
      if Suspect() {
        suspectPacketCount := suspectPacketCount + 1;
      }
      ReleaseAs(true);
    }

    method DeselectRx()
      modifies this`rxSelect
      ensures rxSelect == None
    {
      rxSelect := None;
    }

    /** A whole read by a reader whose buffer is the parser's own. */
    method ReadInPlace(kind: Kind, port: nat -> PortRead) returns (len: nat, used: nat)
      requires Valid() && ReadsFit(port)
      modifies this`fed, this`rxChunkLen, this`rxChunkOffset, this`rxOctetCount, this`rxErrorCount,
               this`rejectedMark, this`suspectClearCount, this`droppedPacketCount, this`rxPacketCount, this`fates,
               this`rxSelect, this`suspectPacketCount, rxChunk, parser, parser.buffer
      ensures Valid() && len <= parser.buffer.Length
      ensures TakenOf(fates) == TakenOf(old(fates)) + if len > 0 then [Packet(kind, parser.buffer[..len])] else []
      ensures Received() == old(Received()) + Gathered(port, used) && old(fed) <= fed
      ensures old(fates) <= fates && forall k :: |old(fates)| <= k < |fates| && fates[k].Dropped? ==>
                Filtered(filter, fates[k].packet) && fates[k].forgiven == old(rejectedMark)
      ensures open && len == 0 ==> ReadOut(port, used)
      ensures len > 0 ==> |old(fates)| < |fates|
      ensures old(rejectedMark) <= rejectedMark
      ensures !open ==> len == 0 && used == 0 && parser.mode == old(parser.mode)
      ensures open && old(Waits()) ==>
                && (len > 0 <==> old(parser.Pending())[0].kind == kind)
                && (len > 0 ==> old(parser.Pending()) == [Packet(kind, parser.buffer[..len])])
                && (len == 0 ==> Waits() && parser.Pending() == old(parser.Pending()))
    {
      hide TakenOf;
      hide RxValid;
      hide DropsValid;
      hide TxValid;
      assert TakenOf(fates) + [] == TakenOf(fates);
      hide Received;
      var ready: bool;
      ready, used := StartRx(kind, port);
      DropsTakeNothing(old(fates), fates);
      if !ready {
        return 0, used;
      }
      TakenSnoc(fates, Taken(parser.Pending()[0]));
      len := RxData(parser.buffer);
      DeselectRx();
    }

    method CopyPacket(target: array<byte>, len: nat)
      requires target != parser.buffer && len <= target.Length && len <= parser.buffer.Length
      modifies target
      ensures target[..len] == parser.buffer[..len]
    {
      for i := 0 to len
        invariant target[..i] == parser.buffer[..i]
      {
        target[i] := parser.buffer[i];
      }
    }

    /** Frame a packet into the stream buffer, when the last one has gone. */
    method Send(kind: Kind, packet: seq<byte>) returns (ok: bool)
      requires Valid()
      modifies this`txStreamLen, this`txStreamOffset, this`txOversizeCount, this`accepted, txStream
      ensures Valid() && emitted == old(emitted)
      ensures ok <==> open && old(txStreamLen) == 0 && |packet| + 1 <= TX_SIZE
      ensures accepted == old(accepted) + if ok then [Packet(kind, packet)] else []
      ensures ok ==> Unsent() == Frame(Packet(kind, packet))
      ensures !ok ==> txStreamLen == old(txStreamLen) && txStreamOffset == old(txStreamOffset)
    {
      hide RxValid;
      hide DropsValid;
      hide Frames;
      if !open || txStreamLen != 0 || |packet| + 1 > TX_SIZE {
        if |packet| + 1 > TX_SIZE {
          txOversizeCount := txOversizeCount + 1;
        }
        assert accepted + [] == accepted;
        return false;
      }
      FramedNext(emitted, txStream[txStreamOffset..txStreamLen], accepted, Packet(kind, packet));
      WriteFrame(kind, packet);
      accepted := accepted + [Packet(kind, packet)];
      txStreamLen, txStreamOffset := |packet| + 1, 0;
      assert txStream[0..txStreamLen] == txStream[..txStreamLen];
      return true;
    }

    /** The indicator and the packet, at the start of the stream buffer. */
    method WriteFrame(kind: Kind, packet: seq<byte>)
      requires |packet| + 1 <= txStream.Length
      modifies txStream
      ensures txStream[..|packet| + 1] == Frame(Packet(kind, packet))
    {
      txStream[0] := Indicator(kind);
      for i := 0 to |packet|
        invariant txStream[..1 + i] == [Indicator(kind)] + packet[..i]
      {
        txStream[1 + i] := packet[i];
        assert txStream[..2 + i] == txStream[..1 + i] + [packet[i]];
      }
      assert packet[..|packet|] == packet;
    }

    /** The port took the next `sent` octets. */
    method Advance(sent: nat)
      requires Valid() && 0 < sent <= txStreamLen - txStreamOffset
      modifies this`txStreamLen, this`txStreamOffset, this`txOctetCount, this`emitted
      ensures Valid() && txOctetCount == old(txOctetCount) + sent
      ensures emitted == old(emitted) + old(Unsent())[..sent] && Unsent() == old(Unsent())[sent..]
      ensures txStreamLen == 0 <==> Unsent() == []
    {
      hide RxValid;
      hide DropsValid;
      hide Frames;
      Written(emitted, txStream[..], txStreamOffset, txStreamLen, sent);
      txOctetCount := txOctetCount + sent;
      emitted := emitted + txStream[txStreamOffset..txStreamOffset + sent];
      txStreamOffset := txStreamOffset + sent;
      if txStreamOffset >= txStreamLen {
        txStreamLen, txStreamOffset := 0, 0;
      }
    }

    /**
     Write as much as the port takes. `port(i, n)` is its answer to the `i`-th offer, of `n`
     octets: exactly what it took is written, and the rest stays.
     */
    method ProcessTx(port: (nat, nat) -> int)
      requires Valid() && WritesFit(port)
      modifies `txStreamLen, `txStreamOffset, `txErrorCount, `txBusyCount, `txOctetCount, `emitted
      ensures Valid() && emitted == old(emitted) + Took(port, old(Unsent()), 0)
      ensures Took(port, old(Unsent()), 0) + Unsent() == old(Unsent())
      ensures txOctetCount - old(txOctetCount) == |Took(port, old(Unsent()), 0)|
      ensures old(txStreamLen) == 0 ==> txStreamLen == 0
    {
      hide Valid;
      hide Took;
      hide Unsent;
      var pass := 0;
      while pass < TX_PASSES && txStreamLen != 0
        invariant Valid() && pass <= TX_PASSES
        invariant emitted + Unsent() == old(emitted) + old(Unsent())
        invariant emitted + Took(port, Unsent(), pass) == old(emitted) + Took(port, old(Unsent()), 0)
        invariant txOctetCount - old(txOctetCount) == |emitted| - |old(emitted)|
        invariant old(txStreamLen) == 0 ==> txStreamLen == 0
        decreases TX_PASSES - pass
      {
        LengthsAgree();
        var sent := port(pass, txStreamLen - txStreamOffset);
        TookStep(port, emitted, Unsent(), pass);
        if sent < 0 {
          txErrorCount := txErrorCount + 1;
          break;
        }
        if sent == 0 {
          txBusyCount := txBusyCount + 1;
          break;
        }
        TakeDrop(emitted, Unsent(), sent);
        Advance(sent);
        pass := pass + 1;
      }
      LengthsAgree();
      Remaining(port, old(emitted), old(Unsent()), emitted, Unsent(), pass);
    }

    lemma MarkIsPast()
      requires Valid()
      ensures rejectedMark <= parser.invalidTypeCount
    {
      hide RxValid;
      hide TxValid;
    }

    lemma LengthsAgree()
      requires Valid()
      ensures txStreamLen - txStreamOffset == |Unsent()|
      ensures txStreamLen == 0 <==> Unsent() == []
    {
    }

    /** Choose the kind of the next packet; refused while the last one is still going out. */
    method StartTx(kind: Kind) returns (ok: bool)
      requires Valid()
      modifies this`txSelect
      ensures Valid() && ok == (open && txStreamLen == 0)
      ensures txSelect == if ok then Some(kind) else old(txSelect)
    {
      hide Valid;
      ok := open && txStreamLen == 0;
      if ok {
        txSelect := Some(kind);
      }
    }

    /** Send a packet of the chosen kind: all of it is accepted, or none. */
    method TxData(data: seq<byte>, port: (nat, nat) -> int) returns (len: nat)
      requires Valid() && WritesFit(port)
      modifies this`txStreamLen, this`txStreamOffset, this`txOversizeCount, this`accepted, txStream,
               this`txErrorCount, this`txBusyCount, this`txOctetCount, this`emitted
      ensures Valid()
      ensures len == if data != [] && txSelect.Some? && open && old(txStreamLen) == 0 && |data| + 1 <= TX_SIZE
                     then |data| else 0
      ensures accepted == old(accepted) + if len > 0 then [Packet(txSelect.value, data)] else []
      ensures len == 0 ==> txStreamLen == old(txStreamLen)
      ensures emitted == old(emitted) + if len > 0 then Took(port, Frame(Packet(txSelect.value, data)), 0) else []
    {
      hide Valid;
      hide Took;
      assert accepted + [] == accepted && emitted + [] == emitted;
      if data == [] || txSelect.None? {
        return 0;
      }
      var ok := Send(txSelect.value, data);
      if !ok {
        return 0;
      }
      ProcessTx(port);
      return |data|;
    }

    /** A whole write: choose the kind, send, deselect. */
    method Write(kind: Kind, data: seq<byte>, port: (nat, nat) -> int) returns (len: nat)
      requires Valid() && WritesFit(port) && data != []
      modifies this`txStreamLen, this`txStreamOffset, this`txOversizeCount, this`accepted, txStream, this`txSelect,
               this`txErrorCount, this`txBusyCount, this`txOctetCount, this`emitted
      ensures Valid() && emitted == old(emitted) + if len > 0 then Took(port, Frame(Packet(kind, data)), 0) else []
      ensures len == if open && old(txStreamLen) == 0 && |data| + 1 <= TX_SIZE then |data| else 0
      ensures accepted == old(accepted) + if len > 0 then [Packet(kind, data)] else []
      ensures len == 0 ==> txStreamLen == old(txStreamLen)
    {
      hide Valid;
      hide Took;
      assert accepted + [] == accepted && emitted + [] == emitted;
      var ok := StartTx(kind);
      if !ok {
        return 0;
      }
      len := TxData(data, port);
      txSelect := None;
    }

    /** Both directions, while the port is open. */
    method Process(rx: nat -> PortRead, tx: (nat, nat) -> int) returns (used: nat)
      requires Valid() && ReadsFit(rx) && WritesFit(tx)
      modifies `fed, `rxChunkLen, `rxChunkOffset, `rxOctetCount, `rxErrorCount, `rejectedMark, `suspectClearCount,
               `droppedPacketCount, `rxPacketCount, `fates, rxChunk, parser, parser.buffer, `txStreamLen,
               `txStreamOffset, `txErrorCount, `txBusyCount, `txOctetCount, `emitted
      ensures Valid() && TakenOf(fates) == TakenOf(old(fates))
      ensures Received() == old(Received()) + Gathered(rx, used) && old(fed) <= fed
      ensures OnlyDropped() && (open ==> ReadOut(rx, used)) && old(rejectedMark) <= rejectedMark
      ensures emitted == old(emitted) + if open then Took(tx, old(Unsent()), 0) else []
      ensures !open ==> used == 0 && parser.mode == old(parser.mode)
      ensures old(Waits()) ==> Waits() && parser.Model() == old(parser.Model())
      ensures old(txStreamLen) == 0 ==> txStreamLen == 0
    {
      hide RxValid;
      hide DropsValid;
      hide TxValid;
      hide TakenOf;
      hide Received;
      hide Unsent;
      hide Took;
      used := 0;
      NothingGathered(rx);
      assert Received() + [] == Received() && emitted + [] == emitted;
      if !open {
        return;
      }
      used := ProcessRx(rx);
      DropsTakeNothing(old(fates), fates);
      ProcessTx(tx);
    }

    /**
     No loss, no duplication: every packet of the octets received in this epoch and given to
     the parser has one fate since the epoch began, in order, or is the one waiting. It was
     dropped only if the filter keeps it out and an indicator before it was rejected that had
     not been forgiven.
     */
    lemma PacketsAreAccountedFor()
      requires Valid()
      ensures var whole := OneShot(parser.buffer.Length, fed);
              && Packets(fates) + parser.Pending() == start.released + whole.packets
              && parser.invalidTypeCount == start.invalid + whole.invalid
              && parser.oversizePacketCount == start.oversize + whole.oversize
      ensures AllSuspect(filter, fates) && Counted(parser.buffer.Length, start, fed, fates)
    {
      ParseIsOneShot(parser.buffer.Length, fed);
      assert start.released + [] == start.released;
    }

    /** Octets written are a prefix of the frames; when nothing is left to write, all of them. */
    lemma EmittedIsPrefix()
      requires Valid()
      ensures emitted <= Frames(accepted)
      ensures txStreamLen == 0 ==> emitted == Frames(accepted)
    {
      if txStreamLen == 0 {
        assert emitted + [] == emitted;
      }
    }
  }

  lemma {:induction false} PacketsLength(fates: seq<Fate>)
    ensures |Packets(fates)| == |fates|
  {
    if fates != [] {
      PacketsLength(fates[..|fates| - 1]);
    }
  }

  /** An epoch begins with nothing of it handed over. */
  lemma NothingCounted(cap: nat, start: Reader, fed: seq<byte>, fates: seq<Fate>)
    requires cap >= 4 && start.state == AtType && start.released == Packets(fates)
    ensures Counted(cap, start, fed, fates)
  {
    PacketsLength(fates);
  }

  /** The waiting packet is the last of the octets fed: everything rejected so far came before it. */
  lemma OneMoreFate(cap: nat, start: Reader, fed: seq<byte>, fates: seq<Fate>, b: Reader,
                    filter: Option<Packet -> bool>, fate: Fate)
    requires cap >= 4 && start.state == AtType && start.pending == [] && Reads(cap, start, fed, b)
    requires Counted(cap, start, fed, fates) && AllSuspect(filter, fates) && Completes(cap, AtType, fed)
    requires b.released == Packets(fates) && |b.pending| == 1
    requires fate.Dropped? ==>
               fate.rejected == b.invalid && Filtered(filter, fate.packet) && fate.forgiven < fate.rejected
    ensures Counted(cap, start, fed, fates + [fate]) && AllSuspect(filter, fates + [fate])
  {
    hide Parse;
    hide RejectedBefore;
    hide Completes;
    hide Packets;
    PacketsLength(fates);
    CompletesRejected(cap, AtType, fed);
    LengthsAdd(start.released, Parse(cap, AtType, fed).packets, b.released, b.pending);
  }

  lemma LengthsAdd(a: seq<Packet>, b: seq<Packet>, c: seq<Packet>, d: seq<Packet>)
    requires c + d == a + [] + b
    ensures |c| + |d| == |a| + |b|
  {
  }

  /** What a feed takes leaves the counts of earlier drops alone, and ends with a packet if one waits. */
  lemma FedCounts(cap: nat, start: Reader, fed: seq<byte>, fates: seq<Fate>, b: Reader,
                  data: seq<byte>, answers: nat -> bool, n: nat, c: Reader)
    requires cap >= 4 && start.state == AtType && start.pending == [] && ValidState(cap, b.state)
    requires Reads(cap, start, fed, b) && Fed(cap, b, data, answers, n, c)
    requires Counted(cap, start, fed, fates) && b.released == Packets(fates)
    requires b.pending == [] || Completes(cap, AtType, fed)
    ensures n <= |data| && Counted(cap, start, fed + data[..n], fates) && c.invalid >= b.invalid
    ensures c.pending != [] ==> Completes(cap, AtType, fed + data[..n])
  {
    hide Parse;
    hide RejectedBefore;
    hide Completes;
    hide Packets;
    PacketsLength(fates);
    LengthsAdd(start.released, Parse(cap, AtType, fed).packets, b.released, b.pending);
    forall k | |start.released| <= k < |fates| && fates[k].Dropped?
      ensures RejectedBefore(cap, AtType, fed + data[..n], k - |start.released|)
           == RejectedBefore(cap, AtType, fed, k - |start.released|)
    {
      RejectedConcat(cap, AtType, fed, data[..n], k - |start.released|);
    }
    if c.pending != [] && n > 0 {
      CompletesConcat(cap, AtType, fed, data[..n]);
    }
    assert fed + [] == fed;
    if n == 0 && b.pending == [] {
      NothingNew(cap, b, data[..n], c);
    }
  }

  lemma NothingNew(cap: nat, a: Reader, none: seq<byte>, b: Reader)
    requires cap >= 4 && ValidState(cap, a.state) && none == [] && Reads(cap, a, none, b) && a.pending == []
    ensures b.pending == []
  {
    assert |b.released| + |b.pending| == |b.released + b.pending| == |a.released|;
  }

  lemma Loaded(chunk: seq<byte>, data: seq<byte>, from: nat)
    requires from <= |data| <= |chunk| && chunk[..|data|] == data[..|data|]
    ensures chunk[from..|data|] == data[from..]
  {
    assert chunk[from..|data|] == chunk[..|data|][from..];
  }

  /** Octets move from the chunk to the parser; together they stay the same. */
  lemma Moved(fed: seq<byte>, chunk: seq<byte>, from: nat, to: nat, n: nat)
    requires from + n <= to <= |chunk|
    ensures (fed + chunk[from..to][..n]) + chunk[from + n..to] == fed + chunk[from..to]
  {
    assert chunk[from..to] == chunk[from..to][..n] + chunk[from + n..to];
  }

  lemma AllRead(fed: seq<byte>, chunk: seq<byte>, at: nat, data: seq<byte>)
    requires at <= |chunk|
    ensures (fed + chunk[at..at]) + data == fed + data[0..]
  {
  }

  /** The frame is a packet, and no shorter part of it is. */
  ghost predicate OnePacket(cap: nat, frame: seq<byte>, p: Packet) {
    && cap >= 4
    && Parse(cap, AtType, frame) == Outcome(AtType, [p], 0, 0)
    && forall n :: 0 <= n < |frame| ==> Parse(cap, AtType, frame[..n]).packets == []
  }

  lemma ResetIsOnePacket(cap: nat)
    requires cap >= 4
    ensures OnePacket(cap, StartupSync.RESET, Packet(Command, [0x03, 0x0C, 0x00]))
  {
    hide Parse;
    FrameParses(cap, Packet(Command, [0x03, 0x0C, 0x00]));
    assert Frame(Packet(Command, [0x03, 0x0C, 0x00])) == StartupSync.RESET;
    forall n: nat | n < 4 ensures Parse(cap, AtType, StartupSync.RESET[..n]).packets == [] {
      if n == 0 {
        ParseNothing(cap, StartupSync.RESET[..n]);
      } else {
        ParseCutHeader(cap, StartupSync.RESET[..n], Command);
      }
    }
  }

  lemma ParseNothing(cap: nat, none: seq<byte>)
    requires cap >= 4 && none == []
    ensures Parse(cap, AtType, none).packets == []
  {
  }

  lemma AllOf(s: seq<byte>)
    ensures s[..|s|] == s && s[|s|..] == []
  {
  }

  /** Fed one whole frame, a parser between packets takes all of it and holds its packet. */
  lemma FrameFed(cap: nat, frame: seq<byte>, p: Packet, a: Reader, answers: nat -> bool, n: nat, b: Reader)
    requires OnePacket(cap, frame, p) && a.state == AtType && a.pending == []
    requires Fed(cap, a, frame, answers, n, b) && b.released == a.released
    ensures n == |frame| && b.pending == [p] && Reads(cap, a, frame, b)
    ensures Completes(cap, AtType, frame) && b.invalid == a.invalid
  {
    hide Parse;
    AllOf(frame);
    if frame == [] {
      ParseNothing(cap, frame);
    }
    assert Parse(cap, AtType, frame[..|frame| - 1]).packets == [];
    assert a.released + [] == a.released;
    assert b.pending == (a.released + b.pending)[|a.released|..];
    assert (a.released + [])[|a.released|..] == [];
  }

  lemma FramedNext(emitted: seq<byte>, none: seq<byte>, accepted: seq<Packet>, p: Packet)
    requires none == [] && emitted + none == Frames(accepted)
    ensures emitted + Frame(p) == Frames(accepted + [p])
  {
    FramesConcat(accepted, [p]);
    assert [p][1..] == [];
    assert Frame(p) + [] == Frame(p);
    assert emitted + [] == emitted;
  }

  lemma TookRest(port: (nat, nat) -> int, rest: seq<byte>, pass: nat, sent: nat)
    requires pass < TX_PASSES && rest != [] && sent == port(pass, |rest|) && 0 < sent <= |rest|
    ensures Took(port, rest, pass) == rest[..sent] + Took(port, rest[sent..], pass + 1)
  {
    if sent == |rest| {
      assert rest[sent..] == [] && rest[..sent] == rest;
      assert Took(port, [], pass + 1) == [];
    }
  }

  /** One offer: what the port takes of it and of the rest is what it takes in all. */
  lemma TookStep(port: (nat, nat) -> int, emitted: seq<byte>, rest: seq<byte>, pass: nat)
    requires WritesFit(port) && pass < TX_PASSES && rest != []
    ensures port(pass, |rest|) <= |rest|
    ensures var sent := port(pass, |rest|);
            if sent <= 0 then Took(port, rest, pass) == []
            else (emitted + rest[..sent]) + Took(port, rest[sent..], pass + 1) == emitted + Took(port, rest, pass)
  {
    var sent := port(pass, |rest|);
    if sent > 0 {
      TookRest(port, rest, pass, sent);
      Associates(emitted, rest[..sent], Took(port, rest[sent..], pass + 1));
    }
  }

  lemma Associates(a: seq<byte>, b: seq<byte>, c: seq<byte>)
    ensures (a + b) + c == a + (b + c)
  {
  }

  lemma TakeDrop(emitted: seq<byte>, rest: seq<byte>, n: nat)
    requires n <= |rest|
    ensures (emitted + rest[..n]) + rest[n..] == emitted + rest
  {
    assert rest[..n] + rest[n..] == rest;
  }

  /** When the passes are over, or the port has taken all it will, the sum of the takes is what was written. */
  lemma Remaining(port: (nat, nat) -> int, before: seq<byte>, stream: seq<byte>,
                  emitted: seq<byte>, rest: seq<byte>, pass: nat)
    requires emitted + rest == before + stream && emitted + Took(port, rest, pass) == before + Took(port, stream, 0)
    requires pass >= TX_PASSES || rest == [] || Took(port, rest, pass) == []
    ensures emitted == before + Took(port, stream, 0)
    ensures Took(port, stream, 0) + rest == stream
  {
    assert Took(port, rest, pass) == [];
    assert emitted + [] == emitted;
    Associates(before, Took(port, stream, 0), rest);
    assert (before + stream)[|before|..] == stream;
    assert (before + (Took(port, stream, 0) + rest))[|before|..] == Took(port, stream, 0) + rest;
  }

  lemma Written(emitted: seq<byte>, buffer: seq<byte>, from: nat, to: nat, n: nat)
    requires from + n <= to <= |buffer|
    ensures (emitted + buffer[from..from + n]) + buffer[from + n..to] == emitted + buffer[from..to]
    ensures from + n == to ==> (emitted + buffer[from..from + n]) + buffer[0..0] == emitted + buffer[from..to]
  {
    assert buffer[from..from + n] + buffer[from + n..to] == buffer[from..to];
  }

  /**
   Whatever the port has taken so far, at the far end it parses to the first packets of
   those accepted, unaltered, with nothing rejected and nothing oversize; the whole
   stream parses to all of them.
   */
  lemma PrefixParses(cap: nat, accepted: seq<Packet>, emitted: seq<byte>)
    requires cap >= 4 && forall p :: p in accepted ==> SelfDelimiting(p) && |p.body| <= cap
    requires emitted <= Frames(accepted)
    ensures var o := Parse(cap, AtType, emitted);
            o.packets <= accepted && o.invalid == 0 && o.oversize == 0
    ensures emitted == Frames(accepted) ==> Parse(cap, AtType, emitted) == Outcome(AtType, accepted, 0, 0)
  {
    hide Parse;
    hide Frames;
    FramingRoundTrip(cap, accepted);
    ParseSplit(cap, AtType, Frames(accepted), |emitted|);
    assert Frames(accepted)[..|emitted|] == emitted;
  }

  datatype Next = ReadPort | Again | Stop

  lemma NothingGathered(port: nat -> PortRead)
    ensures Gathered(port, 0) == []
  {
  }

  lemma GatheredMore(before: seq<byte>, port: nat -> PortRead, n: nat)
    requires n > 0
    ensures before + Gathered(port, n)
         == before + Gathered(port, n - 1) + if port(n - 1).Octets? then port(n - 1).data else []
  {
  }

  /** Handing the waiting packet over is part of the same reading. */
  lemma ReleasedReads(cap: nat, a: Reader, taken: seq<byte>, b: Reader)
    requires cap >= 4 && ValidState(cap, a.state) && Reads(cap, a, taken, b)
    ensures Reads(cap, a, taken, b.(released := b.released + b.pending, pending := []))
  {
    hide Parse;
    var o := Parse(cap, a.state, taken);
    assert (b.released + b.pending) + [] == a.released + a.pending + o.packets;
  }

  /** What a feed took extends the reading; it takes everything unless a packet waits. */
  lemma FedReads(cap: nat, a: Reader, fed: seq<byte>, b: Reader, data: seq<byte>, answers: nat -> bool, n: nat,
                 c: Reader)
    requires cap >= 4 && ValidState(cap, a.state) && ValidState(cap, b.state)
    requires Reads(cap, a, fed, b) && Fed(cap, b, data, answers, n, c)
    ensures n <= |data| && Reads(cap, a, fed + data[..n], c)
    ensures n < |data| ==> c.pending != []
  {
    hide Parse;
    ReadsTransitive(cap, a, fed, b, data[..n], c);
  }
}
