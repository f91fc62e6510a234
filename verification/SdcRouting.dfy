/**
 The routing layer over the SoftDevice Controller: two command dispatchers, one command
 credit, synthetic credit events and the controller's own queue share one way out. The
 controller and the command handlers answer as they please; every theorem is over all
 their answers and all interleavings of the host's calls.
 */
module SdcRouting {
  import opened Octets
  import H4
  import CD = CommandDispatch
  import AG = AdvertisingGuard
  import FC = FlowControl

  /** `legacy` and `enforce` are the two build options; `supplemental` says which opcodes the second table has. */
  datatype Config = Config(rows: seq<CD.Row>, compatRows: seq<CD.Row>, supplemental: u16 -> bool,
                           cap: nat, enforce: bool, legacy: bool)

  const COMPAT_CAP := 254
  const ACL_MAX_PAYLOAD := 251
  const RESPONSE_DATA: u16 := 0x2083
  const READ_BUFFER_SIZE: u16 := 0x2002
  const READ_BUFFER_SIZE_V2: u16 := 0x2060

  datatype Sdc = Sdc(main: Option<seq<byte>>, compat: Option<seq<byte>>,
                     commandLast: bool, creditLast: bool, delayed: Option<u16>,
                     acl: FC.Acl, owed: FC.Credits, chosen: AG.Family)

  ghost predicate ValidConfig(cfg: Config) {
    cfg.cap >= 6 && Answering(cfg.rows) && Answering(cfg.compatRows)
  }

  /** Every row answers its command, as every row of both shipped tables does. */
  ghost predicate Answering(rows: seq<CD.Row>) {
    forall r :: r in rows ==> r.response == CD.Complete || r.response == CD.Status
  }

  // ---- Host to controller ----

  predicate Busy(s: Sdc) {
    s.delayed.Some? || s.commandLast || s.main.Some? || s.compat.Some?
  }

  /** What a handler does to this layer besides answering. `limit` is the buffer count the controller reports. */
  function Handled(s: Sdc, opcode: u16, status: byte, limit: u16): Sdc {
    if status != CD.SUCCESS then s
    else if opcode == AG.HCI_RESET then
      s.(acl := FC.ResetAcl(s.acl), owed := s.owed.(entries := []), creditLast := false)
    else if opcode == READ_BUFFER_SIZE || opcode == READ_BUFFER_SIZE_V2 then
      s.(acl := s.acl.(limit := limit))
    else s
  }

  function Asked(s: Sdc): AG.Choice {
    AG.Choice(s.chosen, [])
  }

  predicate ReachesHandler(cfg: Config, s: Sdc, packet: seq<byte>, reply: CD.Reply) {
    CD.HandlerCalled(cfg.rows, packet, AG.Refusal(cfg.rows, Asked(s), AG.Arrival(packet, reply)))
  }

  function ToMain(cfg: Config, s: Sdc, packet: seq<byte>, reply: CD.Reply, limit: u16): Sdc
    requires cfg.cap >= 6
  {
    var a := AG.Arrival(packet, reply);
    var t := if ReachesHandler(cfg, s, packet, reply)
      then Handled(s, CD.Opcode(packet), reply.status, limit) else s;
    t.(main := CD.Answer(cfg.cap, cfg.rows, packet, AG.Refusal(cfg.rows, Asked(s), a), reply),
       chosen := AG.Arrive(cfg.rows, Asked(s), a).chosen)
  }

  /** The one command whose completion an older controller raises itself, structurally checked. */
  predicate Candidate(cfg: Config, packet: seq<byte>) {
    && cfg.legacy && |packet| >= 3 && CD.Opcode(packet) == RESPONSE_DATA
    && |packet| == 3 + CD.ParamLen(packet) && CD.ParamLen(packet) >= 8 && cfg.cap >= 8
    && packet[10] == CD.ParamLen(packet) - 8
  }

  predicate LocalComplete(event: Option<seq<byte>>, opcode: u16) {
    && event.Some? && |event.value| >= 6 && event.value[0] == 0x0E
    && Le16(event.value[3], event.value[4]) == opcode && event.value[5] != CD.UNKNOWN_COMMAND
  }

  function PutCommand(cfg: Config, s: Sdc, packet: seq<byte>, reply: CD.Reply, limit: u16): (bool, Sdc)
    requires cfg.cap >= 6
  {
    if Busy(s) then (false, s)
    else if |packet| >= 3 && cfg.supplemental(CD.Opcode(packet)) then
      (true, s.(compat := CD.Answer(COMPAT_CAP, cfg.compatRows, packet, CD.SUCCESS, reply)))
    else
      var t := ToMain(cfg, s, packet, reply, limit);
      if Candidate(cfg, packet) && ReachesHandler(cfg, s, packet, reply)
         && LocalComplete(t.main, CD.Opcode(packet))
      then (true, t.(main := None, delayed := Some(CD.Opcode(packet))))
      else (true, t)
  }

  /** What the controller says to an ACL packet. */
  datatype Taking = Taken | Again | Failed

  function PutAcl(cfg: Config, s: Sdc, packet: seq<byte>, answer: Taking): (bool, Sdc) {
    if |packet| < 4 then (true, s)
    else
      var h := FC.HandleOf(packet);
      if |packet| - 4 > ACL_MAX_PAYLOAD then (true, s.(owed := FC.Owe(s.owed, h)))
      else
        var (over, asked) := FC.Guarded(s.acl, h, cfg.enforce);
        if over then (true, s.(acl := asked, owed := FC.Owe(s.owed, h)))
        else match answer
          case Again => (false, s.(acl := asked))
          case Failed => (true, s.(acl := asked, owed := FC.Owe(s.owed, h)))
          case Taken => (true, s.(acl := FC.Put(asked, h)))
  }

  // ---- Controller to host ----

  function Bits(b: byte): bv8 {
    b as bv8
  }

  function Number(x: bv8): byte {
    x as byte
  }

  function Or(b: byte, mask: bv8): byte {
    Number(Bits(b) | mask)
  }

  /** Read Local Supported Commands describes this layer's rows too: bits added in three octets, core 6.2 the last. */
  function Patched(e: seq<byte>): (p: seq<byte>)
    ensures |p| == |e| && forall k :: 0 <= k < |e| && k != 13 && k != 34 && k != 54 ==> p[k] == e[k]
  {
    if |e| <= 34 || e[0] != 0x0E || Le16(e[3], e[4]) != 0x1002 || e[5] != CD.SUCCESS then e
    else
      var p := e[13 := Or(e[13], 0x0C)][34 := Or(e[34], 0x08)];
      if |e| > 54 then p[54 := Or(e[54], 0xE2)] else p
  }

  datatype Source = OfEvent | OfAcl | OfIso | Unlisted

  /** What the controller's queue gives: nothing, an error, or a message somewhere in the whole `buffer`. */
  datatype Polled = Nothing | Fault | Message(source: Source, buffer: seq<byte>)

  datatype Got = Packet(packet: H4.Packet) | Empty | Error

  function KindOf(source: Source): Option<H4.Kind> {
    match source
    case OfEvent => Some(H4.Event)
    case OfAcl => Some(H4.Acl)
    case OfIso => Some(H4.Iso)
    case Unlisted => None
  }

  /** The message's own header says where it ends; a length past the buffer is an error. */
  function Cut(kind: H4.Kind, buffer: seq<byte>): Got {
    if |buffer| < H4.HeaderLen(kind) then Error
    else
      var len := H4.HeaderLen(kind) + H4.PayloadLen(kind, buffer);
      if len > |buffer| then Error else Packet(H4.Packet(kind, buffer[..len]))
  }

  function Read(answer: Polled): Got {
    match answer
    case Nothing => Empty
    case Fault => Error
    case Message(source, buffer) =>
      match KindOf(source)
      case None => Error
      case Some(kind) => Cut(kind, buffer)
  }

  predicate IsEvent(g: Got) {
    g.Packet? && g.packet.kind == H4.Event
  }

  /** The real completion of the command the host is waiting for. */
  predicate Completes(s: Sdc, e: seq<byte>) {
    && s.delayed.Some? && |e| >= 6 && e[0] == 0x0E && Le16(e[3], e[4]) == s.delayed.value
  }

  function Forward(s: Sdc, g: Got): Sdc {
    if !IsEvent(g) then s
    else
      var e := g.packet.body;
      s.(delayed := if Completes(s, e) then None else s.delayed, acl := FC.Track(s.acl, e))
  }

  predicate CreditDue(s: Sdc, cap: nat) {
    !s.creditLast && s.owed.entries != [] && 3 + 4 * |s.owed.entries| <= cap
  }

  /** Whether a get would reach the controller's queue. */
  predicate Polls(s: Sdc, cap: nat) {
    s.main.None? && s.compat.None? && !CreditDue(s, cap)
  }

  function Get(s: Sdc, cap: nat, answer: Polled): (Got, Sdc)
    requires |s.owed.entries| <= FC.HANDLES
  {
    if s.main.Some? then
      if |s.main.value| > cap then (Error, s)
      else (Packet(H4.Packet(H4.Event, Patched(s.main.value))), s.(main := None, commandLast := true))
    else if s.compat.Some? then
      if |s.compat.value| > cap then (Error, s)
      else (Packet(H4.Packet(H4.Event, s.compat.value)), s.(compat := None, commandLast := true))
    else if CreditDue(s, cap) then
      (Packet(H4.Packet(H4.Event, FC.CreditEvent(s.owed.entries))),
       s.(owed := s.owed.(entries := []), creditLast := true))
    else
      var g := Read(answer);
      (g, Forward(s.(commandLast := false, creditLast := false), g))
  }

  // ---- Runs ----

  datatype Op =
    | Command(packet: seq<byte>, reply: CD.Reply, limit: u16)
    | AclData(packet: seq<byte>, answer: Taking)
    | IsoData(packet: seq<byte>)
    | Fetch(cap: nat, polled: Polled)

  ghost predicate Bounded(s: Sdc) {
    FC.ValidCredits(s.owed)
  }

  function Step(cfg: Config, s: Sdc, op: Op): Sdc
    requires cfg.cap >= 6 && |s.owed.entries| <= FC.HANDLES
  {
    match op
    case Command(packet, reply, limit) => PutCommand(cfg, s, packet, reply, limit).1
    case AclData(packet, answer) => PutAcl(cfg, s, packet, answer).1
    case IsoData(_) => s
    case Fetch(cap, polled) => Get(s, cap, polled).1
  }

  lemma StepIsBounded(cfg: Config, s: Sdc, op: Op)
    requires cfg.cap >= 6 && Bounded(s)
    ensures Bounded(Step(cfg, s, op))
  {
    hide FC.Owe;
    hide FC.Guarded;
    hide FC.Put;
    hide FC.Track;
    hide CD.Answer;
    if op.AclData? && |op.packet| >= 4 {
      FC.OweCounts(s.owed, FC.HandleOf(op.packet), 0);
    }
  }

  function Run(cfg: Config, s: Sdc, ops: seq<Op>): (t: Sdc)
    requires cfg.cap >= 6 && Bounded(s)
    ensures Bounded(t)
    decreases |ops|
  {
    if ops == [] then s
    else
      StepIsBounded(cfg, s, ops[0]);
      Run(cfg, Step(cfg, s, ops[0]), ops[1..])
  }

  /** The packet a step takes from the host: an ISO packet always, whatever the controller makes of it. */
  function TakenBy(cfg: Config, s: Sdc, op: Op): seq<H4.Packet>
    requires cfg.cap >= 6
  {
    match op
    case Command(packet, reply, limit) =>
      if PutCommand(cfg, s, packet, reply, limit).0 then [H4.Packet(H4.Command, packet)] else []
    case AclData(packet, answer) => if PutAcl(cfg, s, packet, answer).0 then [H4.Packet(H4.Acl, packet)] else []
    case IsoData(packet) => [H4.Packet(H4.Iso, packet)]
    case Fetch(_, _) => []
  }

  /** The packet a step gives for the host. */
  function GivenBy(s: Sdc, op: Op): seq<H4.Packet>
    requires |s.owed.entries| <= FC.HANDLES
  {
    if op.Fetch? && Get(s, op.cap, op.polled).0.Packet? then [Get(s, op.cap, op.polled).0.packet] else []
  }

  function TakenOver(cfg: Config, s: Sdc, ops: seq<Op>): seq<H4.Packet>
    requires cfg.cap >= 6 && Bounded(s)
    decreases |ops|
  {
    if ops == [] then []
    else
      StepIsBounded(cfg, s, ops[0]);
      TakenBy(cfg, s, ops[0]) + TakenOver(cfg, Step(cfg, s, ops[0]), ops[1..])
  }

  function GivenOver(cfg: Config, s: Sdc, ops: seq<Op>): seq<H4.Packet>
    requires cfg.cap >= 6 && Bounded(s)
    decreases |ops|
  {
    if ops == [] then []
    else
      StepIsBounded(cfg, s, ops[0]);
      GivenBy(s, ops[0]) + GivenOver(cfg, Step(cfg, s, ops[0]), ops[1..])
  }

  /** One step more. */
  lemma {:induction false} RunSnoc(cfg: Config, s: Sdc, ops: seq<Op>, op: Op)
    requires cfg.cap >= 6 && Bounded(s)
    ensures var t := Run(cfg, s, ops);
            && Run(cfg, s, ops + [op]) == Step(cfg, t, op)
            && TakenOver(cfg, s, ops + [op]) == TakenOver(cfg, s, ops) + TakenBy(cfg, t, op)
            && GivenOver(cfg, s, ops + [op]) == GivenOver(cfg, s, ops) + GivenBy(t, op)
    decreases |ops|
  {
    hide Step;
    hide TakenBy;
    hide GivenBy;
    if ops == [] {
      assert ops + [op] == [op] && [op][1..] == [];
      StepIsBounded(cfg, s, op);
    } else {
      StepIsBounded(cfg, s, ops[0]);
      assert (ops + [op])[1..] == ops[1..] + [op];
      RunSnoc(cfg, Step(cfg, s, ops[0]), ops[1..], op);
    }
  }

  /** After initialization, with or without the startup No Operation event queued. */
  function Boot(nop: bool): Sdc {
    Sdc(if nop then Some(CD.Nop()) else None, None, false, false, None,
        FC.Acl([], 0, 0, 0), FC.NOTHING_OWED, AG.Neither)
  }

  // ---- One command credit ----

  function Bit(b: bool): nat {
    if b then 1 else 0
  }

  predicate OneCredit(s: Sdc) {
    Bit(s.main.Some?) + Bit(s.compat.Some?) + Bit(s.delayed.Some?) + Bit(s.commandLast) <= 1
  }

  /** The event octets pending are what the dispatchers build. */
  ghost predicate Shaped(cfg: Config, s: Sdc) {
    && (s.main.Some? ==> ShapedEvent(cfg.cap, s.main.value))
    && (s.compat.Some? ==> ShapedEvent(COMPAT_CAP, s.compat.value))
  }

  predicate ShapedEvent(cap: nat, e: seq<byte>) {
    && 5 <= |e| <= cap && (e[0] == 0x0E || (e[0] == 0x0F && |e| >= 6))
    && H4.SelfDelimiting(H4.Packet(H4.Event, e))
  }

  /** The opcode a command event is for; the No Operation event is for opcode zero. */
  function OpcodeIn(e: seq<byte>): u16
    requires |e| >= 5 && (e[0] == 0x0F ==> |e| >= 6)
  {
    if e[0] == 0x0F then Le16(e[4], e[5]) else Le16(e[3], e[4])
  }

  /** What the dispatchers' answers amount to here: shaped, about this opcode, and always there. */
  lemma AnswerFacts(cap: nat, rows: seq<CD.Row>, packet: seq<byte>, refuse: byte, reply: CD.Reply)
    requires cap >= 6 && Answering(rows)
    ensures var a := CD.Answer(cap, rows, packet, refuse, reply);
            && (a.Some? <==> |packet| >= 3)
            && (a.Some? ==> ShapedEvent(cap, a.value) && Readable(a.value) && OpcodeIn(a.value) == CD.Opcode(packet))
  {
    CD.AnswerIsShaped(cap, rows, packet, refuse, reply);
    CD.AnsweredUnless(cap, rows, packet, refuse, reply);
    if |packet| >= 3 {
      FindIn(rows, CD.Opcode(packet));
    }
  }

  lemma FindIn(rows: seq<CD.Row>, opcode: u16)
    ensures CD.Find(rows, opcode).Some? ==> CD.Find(rows, opcode).value in rows
  {
    CD.FindFirst(rows, opcode);
  }

  /** Handlers touch neither the pending events nor the command turn. */
  lemma HandledFrame(s: Sdc, opcode: u16, status: byte, limit: u16)
    ensures var t := Handled(s, opcode, status, limit);
            && t.main == s.main && t.compat == s.compat && t.commandLast == s.commandLast
            && t.delayed == s.delayed && t.chosen == s.chosen
            && t.creditLast == (s.creditLast && !(opcode == AG.HCI_RESET && status == CD.SUCCESS))
  {
  }

  lemma OnlyWhole(cfg: Config, s: Sdc, packet: seq<byte>, reply: CD.Reply)
    ensures ReachesHandler(cfg, s, packet, reply) ==> |packet| >= 3
  {
  }

  /** A command put, seen from outside the dispatchers. */
  lemma PutCommandFacts(cfg: Config, s: Sdc, packet: seq<byte>, reply: CD.Reply, limit: u16)
    requires ValidConfig(cfg)
    ensures var (taken, t) := PutCommand(cfg, s, packet, reply, limit);
            && (taken <==> !Busy(s))
            && (!taken ==> t == s)
            && (taken ==>
                  && !t.commandLast
                  && Shaped(cfg, t)
                  && Bit(t.main.Some?) + Bit(t.compat.Some?) + Bit(t.delayed.Some?) == Bit(|packet| >= 3)
                  && Outstanding(t) == (if |packet| >= 3 then [CD.Opcode(packet)] else []))
  {
    hide CD.Answer;
    hide AG.Arrive;
    hide AG.Refusal;
    hide CD.HandlerCalled;
    hide Handled;
    hide ShapedEvent;
    hide Answering;
    if !Busy(s) {
      OnlyWhole(cfg, s, packet, reply);
      AnswerFacts(COMPAT_CAP, cfg.compatRows, packet, CD.SUCCESS, reply);
      AnswerFacts(cfg.cap, cfg.rows, packet, AG.Refusal(cfg.rows, Asked(s), AG.Arrival(packet, reply)), reply);
      if |packet| >= 3 {
        HandledFrame(s, CD.Opcode(packet), reply.status, limit);
      }
    }
  }

  /** Commands accepted and not yet answered. */
  function Outstanding(s: Sdc): seq<u16> {
    if s.main.Some? then (if Readable(s.main.value) then [OpcodeIn(s.main.value)] else [])
    else if s.compat.Some? then (if Readable(s.compat.value) then [OpcodeIn(s.compat.value)] else [])
    else if s.delayed.Some? then [s.delayed.value]
    else []
  }

  predicate Readable(e: seq<byte>) {
    |e| >= 5 && (e[0] == 0x0F ==> |e| >= 6)
  }

  /** An event of this layer reaching the host unpatched in every octet that matters here. */
  lemma PatchedFacts(cap: nat, e: seq<byte>)
    requires ShapedEvent(cap, e)
    ensures ShapedEvent(cap, Patched(e)) && OpcodeIn(Patched(e)) == OpcodeIn(e)
  {
  }

  lemma ForwardFrame(s: Sdc, g: Got)
    ensures var t := Forward(s, g);
            && t.main == s.main && t.compat == s.compat && t.owed == s.owed && t.chosen == s.chosen
            && t.commandLast == s.commandLast && t.creditLast == s.creditLast
            && t.delayed == if IsEvent(g) && Completes(s, g.packet.body) then None else s.delayed
  {
  }

  /** Putting an ACL packet touches neither events nor turns. */
  lemma PutAclFrame(cfg: Config, s: Sdc, packet: seq<byte>, answer: Taking)
    ensures var t := PutAcl(cfg, s, packet, answer).1;
            && t.main == s.main && t.compat == s.compat && t.chosen == s.chosen && t.delayed == s.delayed
            && t.commandLast == s.commandLast && t.creditLast == s.creditLast
  {
    hide FC.Owe;
    hide FC.Guarded;
    hide FC.Put;
  }

  /** The invariant of the command path. */
  ghost predicate Sound(cfg: Config, s: Sdc) {
    OneCredit(s) && Shaped(cfg, s) && Bounded(s)
  }

  lemma StepIsSound(cfg: Config, s: Sdc, op: Op)
    requires ValidConfig(cfg) && Sound(cfg, s)
    ensures Sound(cfg, Step(cfg, s, op))
  {
    hide ShapedEvent;
    hide FC.CreditEvent;
    hide PutCommand;
    hide PutAcl;
    hide Forward;
    hide Read;
    hide Bounded;
    StepIsBounded(cfg, s, op);
    if op.Command? {
      PutCommandFacts(cfg, s, op.packet, op.reply, op.limit);
    } else if op.AclData? {
      PutAclFrame(cfg, s, op.packet, op.answer);
    } else if op.Fetch? {
      ForwardFrame(s.(commandLast := false, creditLast := false), Read(op.polled));
    }
  }

  lemma AnswerShape(cap: nat, rows: seq<CD.Row>, packet: seq<byte>, refuse: byte, reply: CD.Reply)
    requires cap >= 6
    ensures CD.Answer(cap, rows, packet, refuse, reply).Some? ==>
              ShapedEvent(cap, CD.Answer(cap, rows, packet, refuse, reply).value)
  {
    CD.AnswerIsShaped(cap, rows, packet, refuse, reply);
  }

  /** Pending events are well shaped whatever the tables say. */
  lemma StepIsShaped(cfg: Config, s: Sdc, op: Op)
    requires cfg.cap >= 6 && Bounded(s) && Shaped(cfg, s)
    ensures Shaped(cfg, Step(cfg, s, op))
  {
    hide ShapedEvent;
    hide CD.Answer;
    hide AG.Arrive;
    hide AG.Refusal;
    hide ReachesHandler;
    hide PutAcl;
    hide Forward;
    hide Read;
    if op.Command? {
      var a := AG.Arrival(op.packet, op.reply);
      AnswerShape(COMPAT_CAP, cfg.compatRows, op.packet, CD.SUCCESS, op.reply);
      AnswerShape(cfg.cap, cfg.rows, op.packet, AG.Refusal(cfg.rows, Asked(s), a), op.reply);
      OnlyWhole(cfg, s, op.packet, op.reply);
    } else if op.AclData? {
      PutAclFrame(cfg, s, op.packet, op.answer);
    } else if op.Fetch? {
      ForwardFrame(s.(commandLast := false, creditLast := false), Read(op.polled));
    }
  }

  // ---- What arrives, octet by octet ----

  /** The connection handle of an ACL packet: twelve bits, low octet first. */
  function HandleIn(packet: seq<byte>): FC.handle
    requires |packet| >= 2
  {
    (packet[0] as int) + 0x100 * (packet[1] as int % 0x10)
  }

  /**
   One ACL packet, whatever its boundary and broadcast flags. Too long, over an enforced
   limit or failed, it is owed to its link; taken, it adds one to its link's packets in
   flight, if the link can be tracked; only an occupied controller leaves it to the host.
   */
  lemma AclPacketCounts(cfg: Config, s: Sdc, packet: seq<byte>, answer: Taking, g: FC.handle)
    requires FC.Tidy(s.acl) && |packet| >= 4
    ensures var (h, (ok, t)) := (HandleIn(packet), PutAcl(cfg, s, packet, answer));
            var room := FC.Tracks(s.acl.entries, h) || |s.acl.entries| < 18;
            var over := cfg.enforce && s.acl.limit > 0 && s.acl.total >= s.acl.limit && room;
            var refused := |packet| > 255 || over || answer == Failed;
            && ok == (refused || answer == Taken)
            && t.owed == (if refused then FC.Owe(s.owed, h) else s.owed)
            && (FC.Count(t.acl.entries, g)
                == if g == h && !refused && answer == Taken && room then FC.Up(FC.Count(s.acl.entries, g))
                   else FC.Count(s.acl.entries, g))
            && t == s.(acl := t.acl, owed := t.owed) && (|packet| > 255 ==> t.acl == s.acl)
  {
    hide FC.Owe;
    hide FC.Put;
    hide FC.Guarded;
    hide FC.Tidy;
    hide FC.Count;
    hide FC.Tracks;
    hide FC.HandleAt;
    FC.HandleOnWire(packet[0], packet[1]);
    FC.OfferCounts(s.acl, FC.HandleOf(packet), cfg.enforce, answer == Taken, g);
  }

  /**
   What a command does here besides being answered. A Reset (03 0C) that succeeds drops the
   links, the owed credits and the credit's turn; LE Read Buffer Size (02 20 and 60 20) that
   succeeds sets the limit; nothing else touches them.
   */
  lemma HandlersOnWire(cfg: Config, s: Sdc, packet: seq<byte>, reply: CD.Reply, limit: u16)
    requires cfg.cap >= 6
    ensures var t := PutCommand(cfg, s, packet, reply, limit).1;
            var done := !Busy(s) && |packet| >= 3 && !cfg.supplemental(CD.Opcode(packet))
                        && ReachesHandler(cfg, s, packet, reply) && reply.status == 0;
            if done && packet[0] == 0x03 && packet[1] == 0x0C then
              && t.acl == s.acl.(entries := [], total := 0)
              && t.owed == s.owed.(entries := []) && !t.creditLast
            else if done && (packet[0] == 0x02 || packet[0] == 0x60) && packet[1] == 0x20 then
              t.acl == s.acl.(limit := limit) && t.owed == s.owed && t.creditLast == s.creditLast
            else t.acl == s.acl && t.owed == s.owed && t.creditLast == s.creditLast
  {
    hide CD.Answer;
    hide AG.Arrive;
    hide LocalComplete;
    hide Candidate;
    hide CD.Opcode;
    if !Busy(s) {
      OnlyWhole(cfg, s, packet, reply);
    }
    if |packet| >= 3 {
      CD.OpcodeIs(packet, 0x03, 0x0C);
      CD.OpcodeIs(packet, 0x02, 0x20);
      CD.OpcodeIs(packet, 0x60, 0x20);
    }
  }

  /**
   The one command that waits for the controller's own completion, in a build that says so:
   LE Set Periodic Advertising Response Data (83 20), well-formed down to its data length,
   that reached its handler and was not answered Unknown HCI Command.
   */
  lemma DelayOnWire(cfg: Config, s: Sdc, packet: seq<byte>, reply: CD.Reply, limit: u16)
    requires cfg.cap >= 6 && !Busy(s)
    ensures var t := PutCommand(cfg, s, packet, reply, limit).1;
            t.delayed.Some? <==>
              && cfg.legacy && |packet| >= 11 && packet[0] == 0x83 && packet[1] == 0x20
              && |packet| == 3 + packet[2] as int && packet[10] == packet[2] - 8
              && cfg.cap >= 8 && !cfg.supplemental(0x2083) && ReachesHandler(cfg, s, packet, reply)
              && var e := ToMain(cfg, s, packet, reply, limit).main;
                 && e.Some? && |e.value| >= 6 && e.value[0] == 0x0E
                 && e.value[3] == 0x83 && e.value[4] == 0x20 && e.value[5] != 0x01
    ensures PutCommand(cfg, s, packet, reply, limit).1.delayed.Some? ==>
              && PutCommand(cfg, s, packet, reply, limit).1.delayed == Some(0x2083)
              && PutCommand(cfg, s, packet, reply, limit).1.main == None
  {
    hide CD.Answer;
    hide AG.Arrive;
    hide ReachesHandler;
    hide CD.Opcode;
    hide Handled;
    hide LocalComplete;
    OnlyWhole(cfg, s, packet, reply);
    if |packet| >= 3 {
      ResponseDataOctets();
      CD.OpcodeIs(packet, 0x83, 0x20);
      HandledKeepsDelayed(s, CD.Opcode(packet), reply.status, limit);
      CompletionOctets(ToMain(cfg, s, packet, reply, limit).main);
    }
  }

  lemma HandledKeepsDelayed(s: Sdc, opcode: u16, status: byte, limit: u16)
    ensures Handled(s, opcode, status, limit).delayed == s.delayed
  {
  }

  lemma CompletionOctets(e: Option<seq<byte>>)
    ensures LocalComplete(e, 0x2083)
       <==> && e.Some? && |e.value| >= 6 && e.value[0] == 0x0E
            && e.value[3] == 0x83 && e.value[4] == 0x20 && e.value[5] != 0x01
  {
    hide Le16;
    if e.Some? && |e.value| >= 6 {
      var lo, hi := e.value[3], e.value[4];
      Le16RoundTrip(0, lo, hi);
      Le16RoundTrip(0, 0x83, 0x20);
      ResponseDataOctets();
    }
  }

  lemma ResponseDataOctets()
    ensures Le16(0x83, 0x20) == 0x2083
  {
  }

  /**
   What answers a command that is taken: the other table, of 254 octets and no guard, for the
   opcodes it has; the main table otherwise, with the guard's status for a command that would
   reach its handler, unless the controller is to complete it.
   */
  lemma CommandIsAnswered(cfg: Config, s: Sdc, packet: seq<byte>, reply: CD.Reply, limit: u16)
    requires cfg.cap >= 6 && !Busy(s)
    ensures var t := PutCommand(cfg, s, packet, reply, limit).1;
            var refuse := if CD.Screen(cfg.rows, packet).Reaches?
                          then AG.Guard(s.chosen, CD.Opcode(packet)).0 else CD.SUCCESS;
            if |packet| >= 3 && cfg.supplemental(CD.Opcode(packet)) then
              t == s.(compat := CD.Answer(254, cfg.compatRows, packet, CD.SUCCESS, reply))
            else
              && t.compat == None
              && t.main == (if t.delayed.Some? then None else CD.Answer(cfg.cap, cfg.rows, packet, refuse, reply))
  {
    hide CD.Answer;
    hide CD.Screen;
    hide AG.Guard;
    hide Candidate;
    hide LocalComplete;
    hide ReachesHandler;
    OnlyWhole(cfg, s, packet, reply);
    if |packet| >= 2 {
      HandledKeepsDelayed(s, CD.Opcode(packet), reply.status, limit);
    }
  }

  /** The wait for the controller's completion ends with it: 0E, and the opcode at its place, and with nothing else. */
  lemma DelayEnds(s: Sdc, cap: nat, polled: Polled)
    requires |s.owed.entries| <= FC.HANDLES && Polls(s, cap)
    ensures var (g, t) := Get(s, cap, polled);
            t.delayed == if && s.delayed.Some? && g.Packet? && g.packet.kind == H4.Event
                            && |g.packet.body| >= 6 && g.packet.body[0] == 0x0E
                            && (g.packet.body[3] as int) + 0x100 * (g.packet.body[4] as int) == s.delayed.value
                         then None else s.delayed
  {
    hide Read;
    hide FC.Track;
  }

  /**
   The controller's messages, whose buffer is longer than the message: an event ends where
   its second octet says, ACL data where its third and fourth say, low octet first, ISO data
   where fourteen bits of them say. A message that would not end in the buffer is an error.
   */
  lemma ReadOnWire(source: Source, buffer: seq<byte>)
    ensures source == OfEvent && |buffer| >= 2 ==>
              Read(Message(source, buffer)) == CutAt(H4.Event, buffer, 2 + buffer[1] as int)
    ensures source == OfAcl && |buffer| >= 4 ==>
              (Read(Message(source, buffer))
               == CutAt(H4.Acl, buffer, 4 + (buffer[2] as int) + 0x100 * (buffer[3] as int)))
    ensures source == OfIso && |buffer| >= 4 ==>
              (Read(Message(source, buffer))
               == CutAt(H4.Iso, buffer, 4 + ((buffer[2] as int) + 0x100 * (buffer[3] as int)) % 0x4000))
    ensures source == Unlisted || |buffer| < 2 || (source != OfEvent && |buffer| < 4) ==>
              Read(Message(source, buffer)) == Error
    ensures Read(Nothing) == Empty && Read(Fault) == Error
  {
  }

  function CutAt(kind: H4.Kind, buffer: seq<byte>, n: nat): Got {
    if n <= |buffer| then Packet(H4.Packet(kind, buffer[..n])) else Error
  }

  /** The bits of `mask` are set in `after`, and the others are as they were in `before`. */
  predicate BitsSet(before: bv8, after: bv8, mask: bv8) {
    after & mask == mask && after & !mask == before & !mask
  }

  lemma NumberBits(x: bv8)
    ensures Bits(Number(x)) == x
  {
  }

  lemma OrSetsBits(b: byte, mask: bv8)
    ensures BitsSet(Bits(b), Bits(Or(b, mask)), mask)
  {
    hide Bits;
    hide Number;
    NumberBits(Bits(b) | mask);
  }

  /**
   Read Local Supported Commands (0E .. 02 10, success) says what this layer adds: in its
   bitmap two bits of octet 7, one of octet 28 and four of octet 48. Nothing else is touched.
   */
  lemma PatchedBits(e: seq<byte>)
    ensures var patches := |e| > 34 && e[0] == 0x0E && e[3] == 0x02 && e[4] == 0x10 && e[5] == 0x00;
            && (!patches ==> Patched(e) == e)
            && (patches ==> BitsSet(Bits(e[6 + 7]), Bits(Patched(e)[6 + 7]), 0x0C))
            && (patches ==> BitsSet(Bits(e[6 + 28]), Bits(Patched(e)[6 + 28]), 0x08))
            && (patches && |e| > 54 ==> BitsSet(Bits(e[6 + 48]), Bits(Patched(e)[6 + 48]), 0xE2))
  {
    hide BitsSet;
    hide Or;
    if |e| > 34 {
      OrSetsBits(e[13], 0x0C);
      OrSetsBits(e[34], 0x08);
      if |e| > 54 {
        OrSetsBits(e[54], 0xE2);
      }
    }
  }

  /**
   What leaves first: a command event, the main table's before the other's; then the owed
   credits, if one did not leave last; then what the controller has. Taking a command event
   holds the command turn, taking the credits holds the credit turn, and asking the
   controller frees both.
   */
  lemma GetOrder(s: Sdc, cap: nat, polled: Polled)
    requires |s.owed.entries| <= FC.HANDLES
    ensures var (g, t) := Get(s, cap, polled);
            var credits := s.owed.entries != [] && 3 + 4 * |s.owed.entries| <= cap && !s.creditLast;
            if s.main.Some? then
              if |s.main.value| > cap then g == Error && t == s
              else g == Packet(H4.Packet(H4.Event, Patched(s.main.value))) && t == s.(main := None, commandLast := true)
            else if s.compat.Some? then
              if |s.compat.value| > cap then g == Error && t == s
              else g == Packet(H4.Packet(H4.Event, s.compat.value)) && t == s.(compat := None, commandLast := true)
            else if credits then
              && g == Packet(H4.Packet(H4.Event, FC.CreditEvent(s.owed.entries)))
              && t == s.(owed := s.owed.(entries := []), creditLast := true)
            else
              && g == Read(polled) && !t.commandLast && !t.creditLast && t.owed == s.owed && t.chosen == s.chosen
              && t.main == None && t.compat == None
              && t.acl == (if g.Packet? && g.packet.kind == H4.Event then FC.Track(s.acl, g.packet.body) else s.acl)
  {
    hide Read;
    hide Patched;
    hide FC.Track;
    hide FC.CreditEvent;
  }
}
