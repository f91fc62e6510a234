/**
 The incremental H:4 parser: one packet buffer, updated in place by blocks, with
 backpressure from the packet handler. Its contract is `Fed`, stated against the
 octet-by-octet reading of module H4; the lemmas after the class carry that contract
 over whole sessions of chunks, refusals and re-fed tails.
 */
module H4Parser {
  import opened Octets
  import opened H4

  datatype Mode = TypeMode | HeaderMode | PayloadMode | DeliverMode | DropMode

  /** What a parser amounts to: its place in the stream, and what it has and is about to hand over. */
  datatype Reader = Reader(state: State, released: seq<Packet>, pending: seq<Packet>,
                           invalid: nat, oversize: nat)

  /** `b` is `a` after reading exactly `taken`: every packet of it handed over once, or waiting. */
  ghost predicate Reads(cap: nat, a: Reader, taken: seq<byte>, b: Reader)
    requires cap >= 4 && ValidState(cap, a.state)
  {
    Extends(a, Parse(cap, a.state, taken), b)
  }

  ghost predicate Extends(a: Reader, o: Outcome, b: Reader) {
    && b.state == o.state
    && b.released + b.pending == a.released + a.pending + o.packets
    && a.released <= b.released
    && b.invalid == a.invalid + o.invalid
    && b.oversize == a.oversize + o.oversize
  }

  /**
   One feed of `data`, `answers(i)` being what the taker says to the i-th packet it is
   offered: each packet handed over was accepted, and a packet left waiting, the one thing
   that stops a feed short, was the first refused; no octet beyond it has been taken.
   */
  ghost predicate Fed(cap: nat, a: Reader, data: seq<byte>, answers: nat -> bool, consumed: nat, b: Reader)
    requires cap >= 4 && ValidState(cap, a.state)
  {
    && consumed <= |data|
    && Reads(cap, a, data[..consumed], b)
    && |b.pending| <= 1
    && (consumed < |data| ==> b.pending != [])
    && (b.pending != [] && consumed > 0 ==> Completes(cap, a.state, data[..consumed]))
    && Obeys(answers, |b.released| - |a.released|, b.pending != [])
  }

  ghost predicate Obeys(answers: nat -> bool, handedOver: nat, refused: bool) {
    && (forall i: nat :: i < handedOver ==> answers(i))
    && (refused ==> !answers(handedOver))
  }

  /** A parser without a handler refuses everything: its packets wait to be fetched. */
  function Answers(hasHandler: bool, accepts: nat -> bool): nat -> bool {
    if hasHandler then accepts else _ => false
  }

  class Parser {
    const buffer: array<byte>
    const hasHandler: bool
    var packetLen: nat
    var headerLen: nat
    var payloadLen: nat
    var dropRemaining: nat
    var kind: Option<Kind>
    var mode: Mode
    var invalidTypeCount: nat
    var oversizePacketCount: nat
    var deliveryRetryCount: nat
    ghost var released: seq<Packet>

    ghost predicate Valid()
      reads this, buffer
    {
      && buffer.Length >= 4
      && (mode != TypeMode ==> kind.Some?)
      && match mode
         case TypeMode => true
         case HeaderMode =>
           headerLen == HeaderLen(kind.value) && packetLen < headerLen
         case PayloadMode =>
           && Sized()
           && packetLen < headerLen + payloadLen
         case DeliverMode =>
           && Sized()
           && packetLen == headerLen + payloadLen
         case DropMode => dropRemaining > 0
    }

    /** The header is in, and says the packet fits. */
    ghost predicate Sized()
      reads this, buffer
    {
      && kind.Some?
      && headerLen == HeaderLen(kind.value) <= packetLen <= headerLen + payloadLen <= buffer.Length
      && payloadLen == PayloadLen(kind.value, buffer[..packetLen])
    }

    ghost function View(): (s: State)
      reads this, buffer
      requires Valid()
      ensures ValidState(buffer.Length, s)
    {
      match mode
      case TypeMode => AtType
      case HeaderMode => InHeader(kind.value, buffer[..packetLen])
      case PayloadMode => InPayload(kind.value, buffer[..packetLen])
      case DeliverMode => AtType
      case DropMode => Dropping(dropRemaining)
    }

    ghost function Pending(): seq<Packet>
      reads this, buffer
      requires Valid()
    {
      if mode == DeliverMode then [Packet(kind.value, buffer[..packetLen])] else []
    }

    ghost function Model(): Reader
      reads this, buffer
      requires Valid()
    {
      Reader(View(), released, Pending(), invalidTypeCount, oversizePacketCount)
    }

    constructor (packet: array<byte>, withHandler: bool)
      requires packet.Length >= 4
      ensures Valid() && buffer == packet && hasHandler == withHandler
      ensures Model() == Reader(AtType, [], [], 0, 0)
    {
      buffer, hasHandler := packet, withHandler;
      packetLen, headerLen, payloadLen, dropRemaining := 0, 0, 0, 0;
      kind, mode := None, TypeMode;
      invalidTypeCount, oversizePacketCount, deliveryRetryCount := 0, 0, 0;
      released := [];
    }

    predicate DeliveryPending()
      reads this
    {
      mode == DeliverMode
    }

    predicate IsMidPacket()
      reads this
    {
      mode == HeaderMode || mode == PayloadMode || mode == DropMode
    }

    /** Forget the packet in hand, whatever its state: the buffer itself is not touched. */
    method Reset()
      requires buffer.Length >= 4
      modifies this
      ensures Valid() && mode == TypeMode
      ensures Model() == Reader(AtType, old(released), [], old(invalidTypeCount), old(oversizePacketCount))
      ensures deliveryRetryCount == old(deliveryRetryCount)
    {
      kind, mode := None, TypeMode;
      packetLen, headerLen, payloadLen, dropRemaining := 0, 0, 0, 0;
    }

    /** The taker has copied the pending packet out: it counts as handed over. */
    method ReleasePending()
      requires Valid()
      modifies this
      ensures Valid() && mode != DeliverMode
      ensures Model() == old(Model()).(released := old(released + Pending()), pending := [])
      ensures old(mode) == DeliverMode ==> mode == TypeMode
      ensures deliveryRetryCount == old(deliveryRetryCount)
    {
      if mode == DeliverMode {
        released := released + Pending();
        Reset();
      } else {
        assert released + [] == released;
      }
    }

    /** Offer the pending packet to the handler; a refusal leaves it where it is. */
    method Deliver(accepts: bool) returns (done: bool)
      requires Valid() && mode == DeliverMode
      modifies this
      ensures Valid() && done == (hasHandler && accepts)
      ensures done ==> mode == TypeMode
      ensures done ==> Model() == old(Model()).(released := old(released + Pending()), pending := [])
      ensures !done ==> mode == DeliverMode && Model() == old(Model())
      ensures deliveryRetryCount == old(deliveryRetryCount) + if hasHandler && !accepts then 1 else 0
    {
      if !hasHandler {
        return false;
      }
      if !accepts {
        deliveryRetryCount := deliveryRetryCount + 1;
        return false;
      }
      ReleasePending();
      return true;
    }

    /** Append `block` to the packet under construction. */
    method Collect(block: seq<byte>)
      requires packetLen + |block| <= buffer.Length
      modifies this`packetLen, buffer
      ensures packetLen == old(packetLen) + |block|
      ensures buffer[..packetLen] == old(buffer[..packetLen]) + block
    {
      var i := 0;
      while i < |block|
        invariant 0 <= i <= |block|
        invariant packetLen == old(packetLen)
        invariant buffer[..packetLen + i] == old(buffer[..packetLen]) + block[..i]
      {
        buffer[packetLen + i] := block[i];
        assert buffer[..packetLen + i] == old(buffer[..packetLen]) + block[..i];
        i := i + 1;
      }
      packetLen := packetLen + |block|;
    }

    method FeedType(b: byte)
      requires Valid() && mode == TypeMode
      modifies this
      ensures Valid() && Extends(old(Model()), Octet(buffer.Length, AtType, b), Model())
      ensures released == old(released) && mode != DeliverMode
      ensures deliveryRetryCount == old(deliveryRetryCount)
    {
      match KindOf(b)
      case None =>
        invalidTypeCount := invalidTypeCount + 1;
      case Some(k) =>
        kind, headerLen, payloadLen := Some(k), HeaderLen(k), 0;
        packetLen, dropRemaining, mode := 0, 0, HeaderMode;
        assert buffer[..0] == [];
    }

    method FeedHeader(block: seq<byte>)
      requires Valid() && mode == HeaderMode && 0 < |block| <= headerLen - packetLen
      modifies this, buffer
      ensures Valid()
      ensures Extends(old(Model()), HeaderOutcome(buffer.Length, old(kind.value), old(buffer[..packetLen]) + block),
                      Model())
      ensures released == old(released)
      ensures deliveryRetryCount == old(deliveryRetryCount)
    {
      hide PayloadLen;
      Collect(block);
      if packetLen == headerLen {
        payloadLen := PayloadLen(kind.value, buffer[..packetLen]);
        if headerLen + payloadLen > buffer.Length {
          oversizePacketCount := oversizePacketCount + 1;
          dropRemaining, packetLen := payloadLen, 0;
          mode := if dropRemaining == 0 then TypeMode else DropMode;
        } else if payloadLen == 0 {
          mode := DeliverMode;
        } else {
          mode := PayloadMode;
        }
      }
    }

    method FeedPayload(block: seq<byte>)
      requires Valid() && mode == PayloadMode && 0 < |block| <= headerLen + payloadLen - packetLen
      modifies this, buffer
      ensures Valid()
      ensures Extends(old(Model()), FrameOutcome(buffer.Length, old(kind.value), old(buffer[..packetLen]) + block,
                                                 old(headerLen + payloadLen)), Model())
      ensures released == old(released)
      ensures deliveryRetryCount == old(deliveryRetryCount)
    {
      Collect(block);
      assert PayloadLen(kind.value, buffer[..packetLen]) == payloadLen;
      if packetLen == headerLen + payloadLen {
        mode := DeliverMode;
      }
    }

    method FeedDrop(block: seq<byte>)
      requires Valid() && mode == DropMode && 0 < |block| <= dropRemaining
      modifies this
      ensures Valid() && Extends(old(Model()), DropOutcome(old(dropRemaining), |block|), Model())
      ensures released == old(released) && mode != DeliverMode
      ensures deliveryRetryCount == old(deliveryRetryCount)
    {
      dropRemaining := dropRemaining - |block|;
      if dropRemaining == 0 {
        Reset();
      }
    }

    /** One round of the loop with octets left: as much of `rest` as the current state can use. */
    method FeedBlock(rest: seq<byte>) returns (n: nat)
      requires Valid() && mode != DeliverMode && rest != []
      modifies this, buffer
      ensures Valid() && 0 < n <= |rest|
      ensures Reads(buffer.Length, old(Model()), rest[..n], Model())
      ensures mode == DeliverMode ==> Completes(buffer.Length, old(View()), rest[..n])
      ensures released == old(released) && deliveryRetryCount == old(deliveryRetryCount)
    {
      hide Parse;
      var room := match mode
        case TypeMode => 1
        case HeaderMode => headerLen - packetLen
        case PayloadMode => headerLen + payloadLen - packetLen
        case _ => dropRemaining;
      n := if room < |rest| then room else |rest|;
      var block := rest[..n];
      match mode {
        case TypeMode =>
          ParseOctet(buffer.Length, AtType, block);
          FeedType(rest[0]);
        case HeaderMode =>
          HeaderBlock(buffer.Length, kind.value, buffer[..packetLen], block);
          HeaderBlock(buffer.Length, kind.value, buffer[..packetLen], block[..n - 1]);
          FeedHeader(block);
        case PayloadMode =>
          PayloadBlock(buffer.Length, kind.value, buffer[..packetLen], block);
          PayloadBlock(buffer.Length, kind.value, buffer[..packetLen], block[..n - 1]);
          FeedPayload(block);
        case DropMode =>
          DropBlock(buffer.Length, dropRemaining, block);
          FeedDrop(block);
      }
    }

    /**
     Feed octets and say how many were taken. `accepts(i)` is the handler's answer to
     the i-th packet it is offered in this call.
     */
    method Feed(data: seq<byte>, accepts: nat -> bool) returns (consumed: nat)
      requires Valid()
      modifies this, buffer
      ensures Valid() && Fed(buffer.Length, old(Model()), data, Answers(hasHandler, accepts), consumed, Model())
      ensures !hasHandler ==> released == old(released)
      ensures !hasHandler && old(mode) == DeliverMode ==> consumed == 0 && buffer[..] == old(buffer[..])
      ensures !hasHandler && old(mode) == DeliverMode ==> Model() == old(Model())
      ensures deliveryRetryCount
           == old(deliveryRetryCount) + if hasHandler && mode == DeliverMode then 1 else 0
    {
      hide Completes;
      ghost var start := Model();
      var offered: nat := 0;
      consumed := 0;
      ReadsNothing(buffer.Length, start, data[..0]);
      hide Parse;
      while mode == DeliverMode || consumed < |data|
        invariant consumed <= |data| && Valid()
        invariant Reads(buffer.Length, start, data[..consumed], Model())
        invariant mode == DeliverMode && consumed > 0 ==> Completes(buffer.Length, start.state, data[..consumed])
        invariant offered == |released| - |start.released|
        invariant forall i: nat :: i < offered ==> hasHandler && accepts(i)
        invariant !hasHandler ==> released == start.released
        invariant !hasHandler && old(mode) == DeliverMode ==> consumed == 0 && mode == DeliverMode
        invariant !hasHandler && old(mode) == DeliverMode ==> buffer[..] == old(buffer[..]) && Model() == start
        invariant deliveryRetryCount == old(deliveryRetryCount)
        decreases 2 * (|data| - consumed) + if mode == DeliverMode then 1 else 0
      {
        ghost var mid := Model();
        if mode == DeliverMode {
          var done := Deliver(accepts(offered));
          offered := offered + 1;
          if !done {
            return;
          }
        } else {
          var n := FeedBlock(data[consumed..]);
          TakeMore(data, consumed, n);
          ReadsTransitive(buffer.Length, start, data[..consumed], mid, data[consumed..consumed + n], Model());
          if mode == DeliverMode {
            CompletesConcat(buffer.Length, start.state, data[..consumed], data[consumed..consumed + n]);
          }
          consumed := consumed + n;
        }
      }
    }
  }

  lemma TakeMore(s: seq<byte>, from: nat, n: nat)
    requires from + n <= |s|
    ensures s[from..][..n] == s[from..from + n]
    ensures s[..from] + s[from..from + n] == s[..from + n]
  {
  }

  lemma ReadsNothing(cap: nat, a: Reader, none: seq<byte>)
    requires cap >= 4 && ValidState(cap, a.state) && none == []
    ensures Reads(cap, a, none, a)
  {
  }

  lemma ReadsTransitive(cap: nat, a: Reader, s: seq<byte>, b: Reader, t: seq<byte>, c: Reader)
    requires cap >= 4 && ValidState(cap, a.state)
    requires Reads(cap, a, s, b) && Reads(cap, b, t, c)
    ensures Reads(cap, a, s + t, c)
  {
    ParseConcat(cap, a.state, s, t);
    ExtendsTransitive(a, Parse(cap, a.state, s), b, Parse(cap, b.state, t), c);
  }

  lemma ExtendsTransitive(a: Reader, o: Outcome, b: Reader, p: Outcome, c: Reader)
    requires Extends(a, o, b) && Extends(b, p, c)
    ensures Extends(a, Then(o, p), c)
  {
    assert (a.released + a.pending + o.packets) + p.packets == a.released + a.pending + (o.packets + p.packets);
  }

  /**
   A session: before feed `i` the parser is `readers[i]` and `at[i]` octets of the stream
   have been taken; the feed offers any number of the octets that follow, so a refused
   tail is offered again by the next one, re-cut or not.
   */
  ghost predicate Session(cap: nat, stream: seq<byte>, at: seq<nat>, readers: seq<Reader>, answers: seq<nat -> bool>)
    requires cap >= 4
  {
    && |at| == |readers| == |answers| + 1
    && at[0] == 0 && readers[0] == Reader(AtType, [], [], 0, 0)
    && (forall i :: 0 <= i < |at| ==> at[i] <= |stream| && ValidState(cap, readers[i].state))
    && forall i :: 0 <= i < |at| - 1 ==> FeedStep(cap, stream, at[i], readers[i], answers[i], at[i + 1], readers[i + 1])
  }

  ghost predicate FeedStep(cap: nat, stream: seq<byte>, from: nat, a: Reader, answers: nat -> bool, to: nat, b: Reader)
    requires cap >= 4 && from <= |stream| && ValidState(cap, a.state)
  {
    exists end: nat :: from <= end <= |stream| && from <= to &&
      Fed(cap, a, stream[from..end], answers, to - from, b)
  }

  /**
   Chunk independence: whatever the chunks, the refusals and the re-feeds, the packets
   handed over plus the one waiting, and the invalid and oversize counts, are those of
   the one-shot reading of the octets taken so far.
   */
  lemma {:induction false} ChunkIndependence(cap: nat, stream: seq<byte>, at: seq<nat>, readers: seq<Reader>,
                                             answers: seq<nat -> bool>)
    requires cap >= 4 && Session(cap, stream, at, readers, answers)
    ensures var last := readers[|readers| - 1];
            var whole := OneShot(cap, stream[..at[|at| - 1]]);
            && last.released + last.pending == whole.packets
            && last.state == whole.state
            && last.invalid == whole.invalid && last.oversize == whole.oversize
  {
    SessionReads(cap, stream, at, readers, answers, |at| - 1);
    ParseIsOneShot(cap, stream[..at[|at| - 1]]);
  }

  lemma SliceOfSlice(s: seq<byte>, from: nat, to: nat, end: nat)
    requires from <= to <= end <= |s|
    ensures s[from..end][..to - from] == s[from..to]
  {
  }

  /** The octets one feed of a session took are the next ones of the stream. */
  lemma FeedStepReads(cap: nat, stream: seq<byte>, from: nat, a: Reader, answers: nat -> bool, to: nat, b: Reader)
    requires cap >= 4 && from <= |stream| && ValidState(cap, a.state)
    requires FeedStep(cap, stream, from, a, answers, to, b)
    ensures from <= to <= |stream| && Reads(cap, a, stream[from..to], b)
  {
    hide Reads;
    var end: nat :| from <= end <= |stream| && from <= to && Fed(cap, a, stream[from..end], answers, to - from, b);
    SliceOfSlice(stream, from, to, end);
  }

  lemma {:induction false} SessionReads(cap: nat, stream: seq<byte>, at: seq<nat>, readers: seq<Reader>,
                                       answers: seq<nat -> bool>, n: nat)
    requires cap >= 4 && Session(cap, stream, at, readers, answers) && n < |at|
    ensures Reads(cap, readers[0], stream[..at[n]], readers[n])
  {
    hide Reads;
    hide FeedStep;
    if n == 0 {
      ReadsNothing(cap, readers[0], stream[..0]);
    } else {
      var m := n - 1;
      SessionReads(cap, stream, at, readers, answers, m);
      assert FeedStep(cap, stream, at[m], readers[m], answers[m], at[m + 1], readers[m + 1]);
      FeedStepReads(cap, stream, at[m], readers[m], answers[m], at[n], readers[n]);
      ReadsOn(cap, stream, readers[0], at[m], readers[m], at[n], readers[n]);
    }
  }

  lemma ReadsOn(cap: nat, stream: seq<byte>, a: Reader, from: nat, b: Reader, to: nat, c: Reader)
    requires cap >= 4 && from <= to <= |stream| && ValidState(cap, a.state) && ValidState(cap, b.state)
    requires Reads(cap, a, stream[..from], b) && Reads(cap, b, stream[from..to], c)
    ensures Reads(cap, a, stream[..to], c)
  {
    hide Reads;
    ReadsTransitive(cap, a, stream[..from], b, stream[from..to], c);
    TakeMore(stream, from, to - from);
  }

  /** How many packets the first `n` feeds of a session have handed over. */
  function HandedOver(readers: seq<Reader>, n: nat): nat
    requires n < |readers|
  {
    |readers[n].released|
  }

  /**
   A packet of the stream is handed over by the feed whose taker accepted it, and by no
   other: the packets between two counts are exactly the ones the feed's answers accept.
   */
  lemma HandedOverIffAccepted(cap: nat, stream: seq<byte>, at: seq<nat>, readers: seq<Reader>,
                              answers: seq<nat -> bool>,
                              n: nat, j: nat)
    requires cap >= 4 && Session(cap, stream, at, readers, answers) && n < |answers|
    requires HandedOver(readers, n) <= j < |readers[n + 1].released + readers[n + 1].pending|
    ensures j < HandedOver(readers, n + 1) <==> answers[n](j - HandedOver(readers, n))
  {
    hide Parse;
    assert FeedStep(cap, stream, at[n], readers[n], answers[n], at[n + 1], readers[n + 1]);
  }

  /** Two sessions over one stream that both drained hand over the same packets. */
  lemma DrainedSessionsAgree(cap: nat, stream: seq<byte>,
                             at1: seq<nat>, rs1: seq<Reader>, answers1: seq<nat -> bool>,
                             at2: seq<nat>, rs2: seq<Reader>, answers2: seq<nat -> bool>)
    requires cap >= 4 && Session(cap, stream, at1, rs1, answers1) && Session(cap, stream, at2, rs2, answers2)
    requires at1[|at1| - 1] == at2[|at2| - 1] == |stream|
    requires rs1[|rs1| - 1].pending == rs2[|rs2| - 1].pending == []
    ensures rs1[|rs1| - 1] == rs2[|rs2| - 1]
  {
    ChunkIndependence(cap, stream, at1, rs1, answers1);
    ChunkIndependence(cap, stream, at2, rs2, answers2);
    assert forall r: seq<Packet> :: r + [] == r;
  }
}
