/**
 The outside of the bridge, and the record of what goes over it. The n-th read of the port,
 the n-th poll of the controller and so on have one answer each, so that a call made and
 not accounted for shows.
 */
module BridgeLogs {
  import opened Octets
  import opened H4
  import H4Parser
  import CD = CommandDispatch
  import LR = LocalReplies
  import SL = SdcLayer
  import SR = SdcRouting
  import TP = Transport

  // ---- The outside ----

  /**
   `rx(n)` is the port's n-th read; `tx(n)` its answers to the offers of the n-th write; the
   controller and the command handlers answer the n-th step of the routing layer; `snapshot`
   and `vendor` serve the n-th command answered by the bridge itself.
   */
  datatype World = World(rx: nat -> TP.PortRead, tx: nat -> (nat, nat) -> int,
                         reply: nat -> CD.Reply, limit: nat -> u16, taking: nat -> SR.Taking, polled: nat -> SR.Polled,
                         snapshot: nat -> seq<byte>, vendor: nat -> LR.VendorAnswer)

  ghost predicate ValidWorld(w: World) {
    && TP.ReadsFit(w.rx)
    && (forall n: nat :: TP.WritesFit(w.tx(n)))
    && (forall n: nat :: w.polled(n).Message? ==> |w.polled(n).buffer| == SL.HELD_SIZE)
    && (forall n: nat :: |w.vendor(n).ret| <= CD.MAX_RETURN)
  }

  /** The port as it answers from its `at`-th read on. */
  function From(port: nat -> TP.PortRead, at: nat): nat -> TP.PortRead {
    (n: nat) => port(at + n)
  }

  /** The octets of the port's reads from `from` up to `end`. */
  function Heard(port: nat -> TP.PortRead, from: nat, end: nat): seq<byte> {
    if end <= from then [] else Heard(port, from, end - 1) + if port(end - 1).Octets? then port(end - 1).data else []
  }

  lemma FromFits(port: nat -> TP.PortRead, at: nat)
    requires TP.ReadsFit(port)
    ensures TP.ReadsFit(From(port, at))
  {
  }

  lemma {:induction false} HeardJoins(port: nat -> TP.PortRead, from: nat, mid: nat, end: nat)
    requires from <= mid <= end
    ensures Heard(port, from, mid) + Heard(port, mid, end) == Heard(port, from, end)
    decreases end
  {
    if mid < end {
      HeardJoins(port, from, mid, end - 1);
    }
  }

  lemma {:induction false} HeardIsGathered(port: nat -> TP.PortRead, at: nat, used: nat)
    ensures TP.Gathered(From(port, at), used) == Heard(port, at, at + used)
  {
    if used > 0 {
      HeardIsGathered(port, at, used - 1);
    }
  }

  lemma NothingHeard(port: nat -> TP.PortRead, at: nat)
    ensures Heard(port, at, at) == []
  {
  }

  lemma HeardOne(port: nat -> TP.PortRead, at: nat)
    ensures Heard(port, at, at + 1) == if port(at).Octets? then port(at).data else []
  {
    NothingHeard(port, at);
  }

  /** A read that finds nothing adds nothing. */
  lemma HeardNone(port: nat -> TP.PortRead, from: nat, at: nat)
    requires from <= at && (port(at).Failed? || port(at).data == [])
    ensures Heard(port, from, at + 1) == Heard(port, from, at)
  {
  }

  /** The read that ends a flush before its passes do finds nothing. */
  lemma FlushIsHeard(port: nat -> TP.PortRead, from: nat, used: nat)
    requires used < TP.RX_PASSES ==> From(port, from)(used) == TP.Failed || From(port, from)(used) == TP.Octets([])
    ensures Heard(port, from, from + if used < TP.RX_PASSES then used + 1 else used)
         == TP.Gathered(From(port, from), used)
  {
    hide Heard;
    hide TP.Gathered;
    HeardIsGathered(port, from, used);
    if used < TP.RX_PASSES {
      HeardNone(port, from, from + used);
    }
  }

  /** One call's reads continue those before it. */
  lemma HeardMore(port: nat -> TP.PortRead, from: nat, at: nat, used: nat)
    requires from <= at
    ensures Heard(port, from, at) + TP.Gathered(From(port, at), used) == Heard(port, from, at + used)
  {
    HeardIsGathered(port, at, used);
    HeardJoins(port, from, at, at + used);
  }

  /** What the port took of the streams offered to it by the writes from `from` on. */
  function Said(port: nat -> (nat, nat) -> int, writes: seq<seq<byte>>, from: nat): seq<byte>
    decreases |writes|
  {
    if |writes| <= from then []
    else
      var n := |writes| - 1;
      Said(port, writes[..n], from) + TP.Took(port(n), writes[n], 0)
  }

  lemma SaidMore(port: nat -> (nat, nat) -> int, writes: seq<seq<byte>>, from: nat, stream: seq<byte>)
    requires from <= |writes|
    ensures Said(port, writes + [stream], from) == Said(port, writes, from) + TP.Took(port(|writes|), stream, 0)
  {
    hide TP.Took;
    assert (writes + [stream])[..|writes|] == writes;
  }

  /** What later writes had taken follows what earlier ones had. */
  lemma {:induction false} SaidJoins(port: nat -> (nat, nat) -> int,
                                     before: seq<seq<byte>>, after: seq<seq<byte>>, from: nat)
    requires from <= |before| && before <= after
    ensures Said(port, after, from) == Said(port, before, from) + Said(port, after, |before|)
    decreases |after|
  {
    hide Said;
    if |before| < |after| {
      var n := |after| - 1;
      assert after == after[..n] + [after[n]];
      SaidMore(port, after[..n], from, after[n]);
      SaidMore(port, after[..n], |before|, after[n]);
      SaidJoins(port, before, after[..n], from);
      TP.Associates(Said(port, before, from), Said(port, after[..n], |before|), TP.Took(port(n), after[n], 0));
    } else {
      assert before == after;
      NothingSaid(port, [], before);
    }
  }

  /** The `n`-th step of the routing layer had the outside's `n`-th answers. */
  predicate AnsweredBy(w: World, n: nat, op: SR.Op) {
    match op
    case Command(_, reply, limit) => reply == w.reply(n) && limit == w.limit(n)
    case AclData(_, answer) => answer == w.taking(n)
    case IsoData(_) => true
    case Fetch(cap, polled) => cap == SL.HELD_SIZE && polled == w.polled(n)
  }

  ghost predicate AllAnsweredBy(w: World, history: seq<SR.Op>) {
    forall n :: 0 <= n < |history| ==> AnsweredBy(w, n, history[n])
  }

  lemma AnsweredMore(w: World, history: seq<SR.Op>, op: SR.Op)
    requires AllAnsweredBy(w, history) && AnsweredBy(w, |history|, op)
    ensures AllAnsweredBy(w, history + [op])
  {
    hide AnsweredBy;
    assert forall n :: 0 <= n < |history| ==> (history + [op])[n] == history[n];
  }

  // ---- Host packets and their outcomes ----

  /** What became of a packet taken from the host. */
  datatype Done =
    | Accepted(packet: Packet)
    | Answered(packet: Packet)
    | Rejected(packet: Packet)
    | Discarded(packet: Packet)

  predicate HostMaySend(kind: Kind) {
    kind == Command || kind == Acl || kind == Iso
  }

  predicate AnsweredHere(core: byte, p: Packet) {
    p.kind == Command && LR.IsLocal(core, p.body)
  }

  predicate Refused(p: Packet) {
    !HostMaySend(p.kind) || p.body == []
  }

  /** The outcome a packet has, once it can have one. */
  function Resolved(core: byte, p: Packet): (d: Done)
    ensures d.packet == p && !d.Discarded?
  {
    if Refused(p) then Rejected(p)
    else if AnsweredHere(core, p) then Answered(p)
    else Accepted(p)
  }

  /** How many steps of the routing layer one offer of the packet takes. */
  function Tries(core: byte, p: Packet): nat {
    if Refused(p) || AnsweredHere(core, p) then 0 else 1
  }

  /**
   Which outcome by what the packet is: events, synchronous data and empty packets are
   rejected; commands FFF1 to FFFB, and those the release does not have, are answered here;
   every other command, and ACL and ISO data, go to the controller.
   */
  lemma ResolvedByKind(core: byte, p: Packet)
    ensures var here := && p.kind == Command && |p.body| >= 3
                        && (|| (p.body[1] == 0xFF && 0xF1 <= p.body[0] <= 0xFB)
                            || (0 < core < 0x0E && p.body[1] == 0x20 && p.body[0] in {0x87, 0x88, 0x97}));
            Resolved(core, p) == if p.kind == Event || p.kind == Sco || p.body == [] then Rejected(p)
                                 else if here then Answered(p) else Accepted(p)
  {
    LR.LocalCommands(core, p.body);
    hide LR.IsLocal;
  }

  /** A packet had its own outcome, or went with a closing port. */
  predicate Due(core: byte, d: Done) {
    d.Discarded? || d == Resolved(core, d.packet)
  }

  predicate AllDue(core: byte, ds: seq<Done>) {
    forall d :: d in ds ==> Due(core, d)
  }

  function DonePackets(ds: seq<Done>): seq<Packet> {
    if ds == [] then [] else DonePackets(ds[..|ds| - 1]) + [ds[|ds| - 1].packet]
  }

  function AcceptedOf(ds: seq<Done>): seq<Packet> {
    if ds == [] then []
    else AcceptedOf(ds[..|ds| - 1]) + if ds[|ds| - 1].Accepted? then [ds[|ds| - 1].packet] else []
  }

  function AnsweredOf(ds: seq<Done>): (ps: seq<Packet>)
    ensures |ps| <= |ds|
  {
    if ds == [] then []
    else AnsweredOf(ds[..|ds| - 1]) + if ds[|ds| - 1].Answered? then [ds[|ds| - 1].packet] else []
  }

  function DiscardedOf(ds: seq<Done>): seq<Packet> {
    if ds == [] then []
    else DiscardedOf(ds[..|ds| - 1]) + if ds[|ds| - 1].Discarded? then [ds[|ds| - 1].packet] else []
  }

  lemma DoneSnoc(core: byte, ds: seq<Done>, d: Done)
    ensures DonePackets(ds + [d]) == DonePackets(ds) + [d.packet]
    ensures AcceptedOf(ds + [d]) == AcceptedOf(ds) + if d.Accepted? then [d.packet] else []
    ensures AnsweredOf(ds + [d]) == AnsweredOf(ds) + if d.Answered? then [d.packet] else []
    ensures DiscardedOf(ds + [d]) == DiscardedOf(ds) + if d.Discarded? then [d.packet] else []
    ensures AllDue(core, ds) && Due(core, d) ==> AllDue(core, ds + [d])
  {
    assert (ds + [d])[..|ds|] == ds;
  }

  // ---- Packets for the host ----

  /** What was put in the slot for the host: a controller packet, as fetched and as adapted, or a local reply. */
  datatype Queued = FromController(original: Packet, packet: Packet) | Local(packet: Packet)

  /** What became of it. */
  datatype Out = Sent(packet: Packet) | Unsendable(packet: Packet) | Dropped(packet: Packet)

  function QueuedPackets(qs: seq<Queued>): seq<Packet> {
    if qs == [] then [] else QueuedPackets(qs[..|qs| - 1]) + [qs[|qs| - 1].packet]
  }

  function Originals(qs: seq<Queued>): seq<Packet> {
    if qs == [] then []
    else Originals(qs[..|qs| - 1]) + if qs[|qs| - 1].FromController? then [qs[|qs| - 1].original] else []
  }

  function LocalsOf(qs: seq<Queued>): seq<Packet> {
    if qs == [] then []
    else LocalsOf(qs[..|qs| - 1]) + if qs[|qs| - 1].Local? then [qs[|qs| - 1].packet] else []
  }

  /** Every packet in the slot delimits itself, and a controller's was adapted to the release and no more. */
  predicate AllReady(core: byte, qs: seq<Queued>) {
    forall q :: q in qs ==>
      SelfDelimiting(q.packet) && (q.FromController? ==> q.packet == Profiled(core, q.original))
  }

  function OutPackets(os: seq<Out>): seq<Packet> {
    if os == [] then [] else OutPackets(os[..|os| - 1]) + [os[|os| - 1].packet]
  }

  function SentOf(os: seq<Out>): seq<Packet> {
    if os == [] then []
    else SentOf(os[..|os| - 1]) + if os[|os| - 1].Sent? then [os[|os| - 1].packet] else []
  }

  function DroppedOf(os: seq<Out>): seq<Packet> {
    if os == [] then []
    else DroppedOf(os[..|os| - 1]) + if os[|os| - 1].Dropped? then [os[|os| - 1].packet] else []
  }

  /** How a packet leaves the slot while the port is open. */
  function Departure(p: Packet): Out {
    if |p.body| + 1 > 1025 then Unsendable(p) else Sent(p)
  }

  /** A packet is unsendable exactly when its frame could never fit the transport's stream. */
  predicate AllFit(os: seq<Out>) {
    forall o :: o in os ==>
      (o.Sent? ==> |o.packet.body| < TP.TX_SIZE) && (o.Unsendable? ==> |o.packet.body| >= TP.TX_SIZE)
  }

  lemma QueuedSnoc(core: byte, qs: seq<Queued>, q: Queued)
    ensures QueuedPackets(qs + [q]) == QueuedPackets(qs) + [q.packet]
    ensures Originals(qs + [q]) == Originals(qs) + if q.FromController? then [q.original] else []
    ensures LocalsOf(qs + [q]) == LocalsOf(qs) + if q.Local? then [q.packet] else []
    ensures AllReady(core, qs + [q]) <==>
              AllReady(core, qs) && SelfDelimiting(q.packet)
              && (q.FromController? ==> q.packet == Profiled(core, q.original))
  {
    assert (qs + [q])[..|qs|] == qs;
    assert q in qs + [q] && forall k :: k in qs ==> k in qs + [q];
  }

  lemma OutSnoc(os: seq<Out>, o: Out)
    ensures OutPackets(os + [o]) == OutPackets(os) + [o.packet]
    ensures SentOf(os + [o]) == SentOf(os) + if o.Sent? then [o.packet] else []
    ensures DroppedOf(os + [o]) == DroppedOf(os) + if o.Dropped? then [o.packet] else []
  {
    assert (os + [o])[..|os|] == os;
  }

  lemma OutGrows(out: seq<Out>, epoch: nat, o: Out)
    requires epoch <= |out|
    requires o.Sent? ==> |o.packet.body| < TP.TX_SIZE
    requires o.Unsendable? ==> |o.packet.body| >= TP.TX_SIZE
    ensures OutPackets(out + [o]) == OutPackets(out) + [o.packet]
    ensures DroppedOf(out + [o]) == DroppedOf(out) + if o.Dropped? then [o.packet] else []
    ensures SentOf((out + [o])[epoch..]) == SentOf(out[epoch..]) + if o.Sent? then [o.packet] else []
    ensures AllFit(out) ==> AllFit(out + [o])
  {
    OutSnoc(out, o);
    OutSnoc(out[epoch..], o);
    assert (out + [o])[epoch..] == out[epoch..] + [o];
  }

  lemma {:induction false} QueuedIsReady(core: byte, qs: seq<Queued>)
    requires AllReady(core, qs)
    ensures forall p :: p in QueuedPackets(qs) ==> SelfDelimiting(p)
  {
    if qs != [] {
      var n := |qs| - 1;
      assert qs == qs[..n] + [qs[n]];
      QueuedSnoc(core, qs[..n], qs[n]);
      QueuedIsReady(core, qs[..n]);
    }
  }

  lemma {:induction false} SentIsOut(os: seq<Out>)
    requires AllFit(os)
    ensures forall p :: p in SentOf(os) ==> p in OutPackets(os) && |p.body| < TP.TX_SIZE
  {
    if os != [] {
      var n := |os| - 1;
      assert os == os[..n] + [os[n]];
      assert AllFit(os[..n]);
      SentIsOut(os[..n]);
    }
  }

  lemma {:induction false} LaterIsOut(os: seq<Out>, from: nat)
    requires from <= |os|
    ensures forall p :: p in OutPackets(os[from..]) ==> p in OutPackets(os)
  {
    if from < |os| {
      var n := |os| - 1;
      assert os[from..][..n - from] == os[..n][from..];
      LaterIsOut(os[..n], from);
    }
  }

  /** What was sent was in the slot: it delimits itself, and a host that takes 1024 octets can hold it. */
  lemma SentIsReady(core: byte, qs: seq<Queued>, os: seq<Out>, waiting: seq<Packet>, from: nat)
    requires AllReady(core, qs) && AllFit(os) && from <= |os|
    requires QueuedPackets(qs) == OutPackets(os) + waiting
    ensures forall p :: p in SentOf(os[from..]) ==> SelfDelimiting(p) && |p.body| < TP.TX_SIZE
  {
    QueuedIsReady(core, qs);
    SentIsOut(os[from..]);
    LaterIsOut(os, from);
    assert forall p :: p in OutPackets(os) ==> p in QueuedPackets(qs);
  }

  /** The reply to each command answered here, the n-th with the n-th answers of the outside. */
  function Replies(w: World, core: byte, cap: nat, commands: seq<Packet>): seq<Packet> {
    if commands == [] then []
    else
      var n := |commands| - 1;
      Replies(w, core, cap, commands[..n]) + [ReplyTo(w, core, cap, n, commands[n])]
  }

  function ReplyTo(w: World, core: byte, cap: nat, n: nat, command: Packet): Packet {
    if LR.IsLocal(core, command.body) && cap >= 6 && |w.vendor(n).ret| <= CD.MAX_RETURN
    then Packet(Event, LR.LocalReply(core, cap, command.body, w.snapshot(n), w.vendor(n)))
    else Packet(Event, [])
  }

  lemma RepliesSnoc(w: World, core: byte, cap: nat, commands: seq<Packet>, command: Packet)
    ensures Replies(w, core, cap, commands + [command])
         == Replies(w, core, cap, commands) + [ReplyTo(w, core, cap, |commands|, command)]
  {
    assert (commands + [command])[..|commands|] == commands;
  }

  /** A send epoch that begins now has sent and said nothing. */
  lemma NothingSaid(port: nat -> (nat, nat) -> int, os: seq<Out>, writes: seq<seq<byte>>)
    ensures SentOf(os[|os|..]) == [] && Said(port, writes, |writes|) == []
  {
  }

  // ---- The whole record ----

  /** Everything on the record at one moment, and where each direction's epoch begins. */
  datatype Snapshot = Snapshot(
    done: seq<Done>, queued: seq<Queued>, out: seq<Out>, writes: seq<seq<byte>>, history: seq<SR.Op>,
    epoch: nat, saidFrom: nat, heardFrom: nat, base: seq<byte>, portReads: nat,
    scanning: bool, lead: seq<byte>, noise: seq<byte>,
    start: H4Parser.Reader, fed: seq<byte>, fates: seq<TP.Fate>, forgiven: nat)

  /** The records only grow, and nothing goes as with a closing port. */
  ghost predicate Grows(a: Snapshot, b: Snapshot) {
    && a.done <= b.done && a.queued <= b.queued && a.out <= b.out
    && DiscardedOf(b.done) == DiscardedOf(a.done) && DroppedOf(b.out) == DroppedOf(a.out)
    && a.writes <= b.writes && a.history <= b.history
    && b.epoch == a.epoch && b.saidFrom == a.saidFrom
    && a.portReads <= b.portReads && a.fates <= b.fates
  }

  /**
   From one moment to a later one with the port left as it is: the records of packets grow,
   no epoch begins, the parser reads on in what came in, and a packet dropped on the way had
   no less forgiven before it than was forgiven then.
   */
  ghost predicate Follows(a: Snapshot, b: Snapshot) {
    && Grows(a, b)
    && b.heardFrom == a.heardFrom && b.base == a.base
    && a.noise <= b.noise
    && (!a.scanning ==> !b.scanning && b.lead == a.lead && b.noise == a.noise && b.start == a.start && a.fed <= b.fed)
    && a.forgiven <= b.forgiven
    && TP.ForgivenSince(b.fates, |a.fates|, a.forgiven)
  }

  /** The port has been read in between, or a packet has been taken or dropped. */
  ghost predicate Moved(a: Snapshot, b: Snapshot) {
    a.portReads < b.portReads || |a.fates| < |b.fates|
  }

  lemma FollowsOn(a: Snapshot, b: Snapshot, c: Snapshot)
    requires Follows(a, b) && Follows(b, c)
    ensures Follows(a, c) && (Moved(a, b) || Moved(b, c) ==> Moved(a, c))
  {
    hide DiscardedOf;
    hide DroppedOf;
  }

  lemma FollowsItself(a: Snapshot)
    ensures Follows(a, a)
  {
  }

  lemma GrowsOn(a: Snapshot, b: Snapshot, c: Snapshot)
    requires Grows(a, b) && Grows(b, c)
    ensures Grows(a, c) && (Moved(a, b) || Moved(b, c) ==> Moved(a, c))
  {
    hide DiscardedOf;
    hide DroppedOf;
  }

  lemma FollowsGrows(a: Snapshot, b: Snapshot)
    requires Follows(a, b)
    ensures Grows(a, b) && a.done <= b.done && a.queued <= b.queued && a.out <= b.out
  {
    hide DiscardedOf;
    hide DroppedOf;
  }

  // ---- The release profile ----

  /** A release profile narrows two answers: the version octets, and the bits of commands it does not have. */
  function Profiled(core: byte, p: Packet): (q: Packet)
    ensures q.kind == p.kind && |q.body| == |p.body|
    ensures forall k :: 0 <= k < |p.body| && k != 6 && k != 9 && k != 53 ==> q.body[k] == p.body[k]
  {
    var e := p.body;
    if core == 0 || p.kind != Event || |e| < 6 || e[0] != 0x0E || e[5] != 0 then p
    else
      var opcode := Le16(e[3], e[4]);
      if opcode == 0x1001 && |e| >= 14 then
        Packet(Event, e[6 := AtMost(e[6], core)][9 := AtMost(e[9], core)])
      else if core < LR.CORE_6_0 && opcode == 0x1002 && |e| > 53 then
        Packet(Event, e[53 := Without(e[53])])
      else p
  }

  function AtMost(b: byte, limit: byte): byte {
    if b > limit then limit else b
  }

  function Without(b: byte): byte {
    SR.Number(SR.Bits(b) & 0xE3)
  }

  lemma WithoutBits(b: byte)
    ensures SR.Bits(Without(b)) & 0x1C == 0 && SR.Bits(Without(b)) & !0x1C == SR.Bits(b) & !0x1C
  {
    hide SR.Bits;
    hide SR.Number;
    SR.NumberBits(SR.Bits(b) & 0xE3);
  }

  /**
   What a release changes, octet by octet: in a successful Read Local Version (0E .. 01 10)
   no version above its own; below Core 6.0, in a successful Read Local Supported Commands
   (0E .. 02 10), not the three commands of octet 47. Nothing else.
   */
  lemma ProfiledOnWire(core: byte, p: Packet)
    ensures var (e, q) := (p.body, Profiled(core, p).body);
            var answers := core > 0 && p.kind == Event && |e| >= 6 && e[0] == 0x0E && e[4] == 0x10 && e[5] == 0;
            if answers && e[3] == 0x01 && |e| >= 14 then
              && q == e[6 := q[6]][9 := q[9]]
              && q[6] == (if e[6] > core then core else e[6]) && q[9] == (if e[9] > core then core else e[9])
            else if answers && e[3] == 0x02 && core < 0x0E && |e| > 53 then
              && q == e[6 + 47 := q[6 + 47]] && SR.Bits(q[6 + 47]) & 0x1C == 0
              && SR.Bits(q[6 + 47]) & !0x1C == SR.Bits(e[6 + 47]) & !0x1C
            else q == e
  {
    hide Without;
    hide SR.Bits;
    var e := p.body;
    if |e| >= 6 {
      CompletesIs(e, 0x01);
      CompletesIs(e, 0x02);
    }
    if |e| > 53 {
      WithoutBits(e[53]);
    }
  }

  lemma CompletesIs(e: seq<byte>, lo: byte)
    requires |e| >= 6
    ensures Le16(e[3], e[4]) == 0x1000 + lo as int <==> e[3] == lo && e[4] == 0x10
  {
    var p, q := e[3], e[4];
    assert Le16(p, q) == (p as int) + 0x100 * (q as int);
  }

  /** The adapted packet is as self-delimiting as the one it was. */
  lemma ProfiledDelimits(core: byte, p: Packet)
    ensures SelfDelimiting(p) ==> SelfDelimiting(Profiled(core, p))
  {
  }
}
