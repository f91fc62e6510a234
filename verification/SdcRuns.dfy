/**
 The routing layer over whole runs: one command credit, responses in order, the
 controller's queue never starved, every packet well formed, and the accounting of module
 FlowControl carried by every step.
 */
module SdcRuns {
  import opened Octets
  import opened SdcRouting
  import H4
  import CD = CommandDispatch
  import AG = AdvertisingGuard
  import FC = FlowControl

  lemma BootIsSound(cfg: Config, nop: bool)
    requires ValidConfig(cfg)
    ensures Sound(cfg, Boot(nop))
  {
  }

  lemma {:induction false} RunIsSound(cfg: Config, s: Sdc, ops: seq<Op>)
    requires ValidConfig(cfg) && Sound(cfg, s)
    ensures Sound(cfg, Run(cfg, s, ops))
    decreases |ops|
  {
    hide Shaped;
    hide OneCredit;
    hide Step;
    if ops != [] {
      StepIsSound(cfg, s, ops[0]);
      RunIsSound(cfg, Step(cfg, s, ops[0]), ops[1..]);
    }
  }

  /** In every reachable state at most one of the four holders has the host's command credit. */
  lemma OneCommandCredit(cfg: Config, nop: bool, ops: seq<Op>)
    requires ValidConfig(cfg)
    ensures OneCredit(Run(cfg, Boot(nop), ops))
  {
    hide OneCredit;
    BootIsSound(cfg, nop);
    RunIsSound(cfg, Boot(nop), ops);
  }

  // ---- Responses, in order ----

  /** Opcodes of the commands accepted, and of the command responses that have left. */
  datatype Log = Log(commands: seq<u16>, responses: seq<u16>)

  /** A packet that answers a command: a dispatcher's event, or the completion that was being waited for. */
  predicate Responds(s: Sdc, op: Op)
    requires |s.owed.entries| <= FC.HANDLES && op.Fetch?
  {
    var g := Get(s, op.cap, op.polled).0;
    IsEvent(g) && Readable(g.packet.body)
    && (if Polls(s, op.cap) then Completes(s, g.packet.body) else s.main.Some? || s.compat.Some?)
  }

  function Logged(cfg: Config, l: Log, s: Sdc, op: Op): Log
    requires cfg.cap >= 6 && |s.owed.entries| <= FC.HANDLES
  {
    match op
    case Command(packet, reply, limit) =>
      if PutCommand(cfg, s, packet, reply, limit).0 && |packet| >= 3
      then l.(commands := l.commands + [CD.Opcode(packet)]) else l
    case AclData(_, _) => l
    case IsoData(_) => l
    case Fetch(cap, polled) =>
      if Responds(s, op) then l.(responses := l.responses + [OpcodeIn(Get(s, cap, polled).0.packet.body)]) else l
  }

  /** Responses have left one per accepted command, in the same order; what is missing is still held. */
  predicate InOrder(l: Log, s: Sdc) {
    l.commands == l.responses + Outstanding(s)
  }

  lemma FetchInOrder(cfg: Config, l: Log, s: Sdc, cap: nat, polled: Polled)
    requires ValidConfig(cfg) && Sound(cfg, s) && InOrder(l, s)
    ensures InOrder(Logged(cfg, l, s, Fetch(cap, polled)), Step(cfg, s, Fetch(cap, polled)))
  {
    hide FC.CreditEvent;
    hide Forward;
    hide Read;
    hide Patched;
    if s.main.Some? {
      PatchedFacts(cfg.cap, s.main.value);
    }
    ForwardFrame(s.(commandLast := false, creditLast := false), Read(polled));
  }

  lemma StepInOrder(cfg: Config, l: Log, s: Sdc, op: Op)
    requires ValidConfig(cfg) && Sound(cfg, s) && InOrder(l, s)
    ensures InOrder(Logged(cfg, l, s, op), Step(cfg, s, op))
  {
    hide PutCommand;
    hide PutAcl;
    hide Get;
    hide ShapedEvent;
    if op.Command? {
      PutCommandFacts(cfg, s, op.packet, op.reply, op.limit);
    } else if op.AclData? {
      PutAclFrame(cfg, s, op.packet, op.answer);
    } else if op.Fetch? {
      FetchInOrder(cfg, l, s, op.cap, op.polled);
    }
  }

  function LogRun(cfg: Config, l: Log, s: Sdc, ops: seq<Op>): Log
    requires cfg.cap >= 6 && Bounded(s)
    decreases |ops|
  {
    if ops == [] then l
    else
      StepIsBounded(cfg, s, ops[0]);
      LogRun(cfg, Logged(cfg, l, s, ops[0]), Step(cfg, s, ops[0]), ops[1..])
  }

  lemma {:induction false} RunInOrder(cfg: Config, l: Log, s: Sdc, ops: seq<Op>)
    requires ValidConfig(cfg) && Sound(cfg, s) && InOrder(l, s)
    ensures InOrder(LogRun(cfg, l, s, ops), Run(cfg, s, ops))
    decreases |ops|
  {
    hide Shaped;
    hide OneCredit;
    hide Step;
    hide Logged;
    hide InOrder;
    if ops != [] {
      StepIsSound(cfg, s, ops[0]);
      StepInOrder(cfg, l, s, ops[0]);
      RunInOrder(cfg, Logged(cfg, l, s, ops[0]), Step(cfg, s, ops[0]), ops[1..]);
    }
  }

  /**
   Over any run from power-up, the commands accepted are the responses that have left
   followed by at most one still held: one response each, in order, with the same opcode.
   */
  lemma ResponsesInOrder(cfg: Config, ops: seq<Op>)
    requires ValidConfig(cfg)
    ensures var l := LogRun(cfg, Log([], []), Boot(false), ops);
            var s := Run(cfg, Boot(false), ops);
            && l.commands == l.responses + Outstanding(s)
            && |Outstanding(s)| <= 1
            && (!Busy(s) ==> l.commands == l.responses)
  {
    BootIsSound(cfg, false);
    RunInOrder(cfg, Log([], []), Boot(false), ops);
    var l := LogRun(cfg, Log([], []), Boot(false), ops);
    assert l.responses + [] == l.responses;
  }

  /** In the default build nothing is ever delayed: every response is the dispatcher's own. */
  lemma {:induction false} NothingDelayed(cfg: Config, s: Sdc, ops: seq<Op>)
    requires cfg.cap >= 6 && Bounded(s) && !cfg.legacy && s.delayed.None?
    ensures Run(cfg, s, ops).delayed.None?
    decreases |ops|
  {
    if ops != [] {
      StepIsBounded(cfg, s, ops[0]);
      NothingDelayedStep(cfg, s, ops[0]);
      hide Step;
      NothingDelayed(cfg, Step(cfg, s, ops[0]), ops[1..]);
    }
  }

  lemma NothingDelayedStep(cfg: Config, s: Sdc, op: Op)
    requires cfg.cap >= 6 && Bounded(s) && !cfg.legacy && s.delayed.None?
    ensures Step(cfg, s, op).delayed.None?
  {
    hide CD.Answer;
    hide Forward;
    hide PutAcl;
    hide Read;
    hide AG.Arrive;
    hide AG.Refusal;
    if op.AclData? {
      PutAclFrame(cfg, s, op.packet, op.answer);
    } else if op.Fetch? {
      ForwardFrame(s.(commandLast := false, creditLast := false), Read(op.polled));
    }
  }

  // ---- The controller's queue is not starved ----

  /** A reset that reached its handler and succeeded: it gives the credit event its turn back early. */
  predicate Resets(cfg: Config, s: Sdc, op: Op) {
    && op.Command? && !Busy(s) && |op.packet| >= 3 && !cfg.supplemental(CD.Opcode(op.packet))
    && ReachesHandler(cfg, s, op.packet, op.reply)
    && CD.Opcode(op.packet) == AG.HCI_RESET && op.reply.status == CD.SUCCESS
  }

  /** Gets that can still return local packets before one must reach the controller. */
  function Rank(s: Sdc, resets: bool): nat {
    if s.commandLast || s.delayed.Some? then Bit(!s.creditLast)
    else if s.main.Some? || s.compat.Some? then 1 + Bit(!s.creditLast)
    else 1 + Bit(!s.creditLast) + Bit(resets)
  }

  /** No event is longer: one octet says how much follows the first two. */
  const MAX_EVENT := 257

  /** A get offers room for any event. */
  predicate Roomy(op: Op) {
    op.Fetch? ==> op.cap >= MAX_EVENT
  }

  /** The waiting command events fit. */
  lemma EventsAreShort(cfg: Config, s: Sdc)
    requires Sound(cfg, s)
    ensures s.main.Some? ==> |s.main.value| <= MAX_EVENT
    ensures s.compat.Some? ==> |s.compat.value| <= MAX_EVENT
  {
  }

  predicate Starves(s: Sdc, op: Op) {
    op.Fetch? && !Polls(s, op.cap)
  }

  lemma CreditLastAfter(cfg: Config, s: Sdc, op: Op)
    requires op.Command? && cfg.cap >= 6
    ensures var t := PutCommand(cfg, s, op.packet, op.reply, op.limit).1;
            t.creditLast == (s.creditLast && !Resets(cfg, s, op))
  {
    hide CD.Answer;
    hide AG.Arrive;
    hide AG.Refusal;
    hide LocalComplete;
    hide Handled;
    if !Busy(s) {
      OnlyWhole(cfg, s, op.packet, op.reply);
      if |op.packet| >= 3 {
        HandledFrame(s, CD.Opcode(op.packet), op.reply.status, op.limit);
      }
    }
  }

  lemma RankStep(cfg: Config, s: Sdc, op: Op, resets: bool)
    requires ValidConfig(cfg) && Sound(cfg, s) && Roomy(op)
    requires Resets(cfg, s, op) ==> resets
    requires op.Fetch? ==> Starves(s, op)
    ensures Rank(Step(cfg, s, op), resets) + Bit(op.Fetch?) <= Rank(s, resets)
  {
    hide PutCommand;
    hide PutAcl;
    hide Resets;
    hide FC.CreditEvent;
    hide Patched;
    EventsAreShort(cfg, s);
    if op.Command? {
      PutCommandFacts(cfg, s, op.packet, op.reply, op.limit);
      CreditLastAfter(cfg, s, op);
      ResetsIsWhole(cfg, s, op);
    } else if op.AclData? {
      PutAclFrame(cfg, s, op.packet, op.answer);
    }
  }

  lemma ResetsIsWhole(cfg: Config, s: Sdc, op: Op)
    ensures Resets(cfg, s, op) ==> op.Command? && |op.packet| >= 3 && !Busy(s)
  {
  }

  function Gets(ops: seq<Op>): nat {
    if ops == [] then 0 else Bit(ops[0].Fetch?) + Gets(ops[1..])
  }

  /** No get of the run reaches the controller. */
  predicate NeverPolls(cfg: Config, s: Sdc, ops: seq<Op>)
    requires cfg.cap >= 6 && Bounded(s)
    decreases |ops|
  {
    if ops == [] then true
    else
      StepIsBounded(cfg, s, ops[0]);
      (ops[0].Fetch? ==> Starves(s, ops[0])) && NeverPolls(cfg, Step(cfg, s, ops[0]), ops[1..])
  }

  predicate ResetFree(cfg: Config, s: Sdc, ops: seq<Op>)
    requires cfg.cap >= 6 && Bounded(s)
    decreases |ops|
  {
    if ops == [] then true
    else
      StepIsBounded(cfg, s, ops[0]);
      !Resets(cfg, s, ops[0]) && ResetFree(cfg, Step(cfg, s, ops[0]), ops[1..])
  }

  lemma {:induction false} RankBounds(cfg: Config, s: Sdc, ops: seq<Op>, resets: bool)
    requires ValidConfig(cfg) && Sound(cfg, s)
    requires forall op :: op in ops ==> Roomy(op)
    requires NeverPolls(cfg, s, ops) && (!resets ==> ResetFree(cfg, s, ops))
    ensures Gets(ops) <= Rank(s, resets)
    decreases |ops|
  {
    hide Sound;
    hide Step;
    hide Starves;
    hide Roomy;
    hide Resets;
    hide Rank;
    if ops != [] {
      SoundIsBounded(cfg, s);
      StepIsSound(cfg, s, ops[0]);
      RankStep(cfg, s, ops[0], resets);
      RankBounds(cfg, Step(cfg, s, ops[0]), ops[1..], resets);
    }
  }

  lemma SoundIsBounded(cfg: Config, s: Sdc)
    requires Sound(cfg, s)
    ensures Bounded(s)
  {
  }

  /**
   Bounded starvation: from any reachable state, whatever the host sends in between,
   four gets cannot all miss the controller's queue, and without a reset three cannot.
   */
  lemma QueueIsNotStarved(cfg: Config, nop: bool, before: seq<Op>, ops: seq<Op>)
    requires ValidConfig(cfg) && forall op :: op in ops ==> Roomy(op)
    requires NeverPolls(cfg, Run(cfg, Boot(nop), before), ops)
    ensures Gets(ops) <= 3
    ensures ResetFree(cfg, Run(cfg, Boot(nop), before), ops) ==> Gets(ops) <= 2
  {
    var s := Run(cfg, Boot(nop), before);
    BootIsSound(cfg, nop);
    RunIsSound(cfg, Boot(nop), before);
    RankBounds(cfg, s, ops, true);
    if ResetFree(cfg, s, ops) {
      RankBounds(cfg, s, ops, false);
    }
  }

  // The bound is reached: a credit, then a Reset's event, then another credit.

  const ONLY_RESET := Config([CD.Row(AG.HCI_RESET, 0, 0, CD.Complete, true)], [], _ => false, 260, false, false)
  const RESET_NOW := Command([0x03, 0x0C, 0x00], CD.Reply(CD.SUCCESS, CD.Complete, []), 0)
  const LOOK := Fetch(1024, Nothing)

  /** An ACL packet one octet too long, on handle zero. */
  function TooLong(): Op {
    AclData(seq(256, _ => 0), Taken)
  }

  lemma TooLongIsOwed(s: Sdc)
    requires s.owed == FC.NOTHING_OWED
    ensures Step(ONLY_RESET, s, TooLong()) == s.(owed := FC.Credits([FC.Entry(0, 1)], 0))
  {
    assert [] + [FC.Entry(0, 1)] == [FC.Entry(0, 1)];
  }

  lemma ResetIsTaken(s: Sdc)
    requires !Busy(s) && s.owed == FC.NOTHING_OWED
    ensures var t := Step(ONLY_RESET, s, RESET_NOW);
            t.main.Some? && |t.main.value| <= 260 && t.compat.None? && !t.creditLast && t.owed == FC.NOTHING_OWED
  {
    var packet := [0x03, 0x0C, 0x00];
    assert CD.Opcode(packet) == AG.HCI_RESET;
    assert CD.Find(ONLY_RESET.rows, AG.HCI_RESET) == Some(ONLY_RESET.rows[0]);
    PutCommandFacts(ONLY_RESET, s, packet, CD.Reply(CD.SUCCESS, CD.Complete, []), 0);
  }

  lemma CreditIsDue(s: Sdc)
    requires s.main.None? && s.compat.None? && !s.creditLast && s.owed == FC.Credits([FC.Entry(0, 1)], 0)
    ensures Starves(s, LOOK) && Step(ONLY_RESET, s, LOOK) == s.(owed := FC.NOTHING_OWED, creditLast := true)
  {
    hide FC.CreditEvent;
  }

  /** Three gets in a row that miss the controller's queue: the bound of four is exact. */
  lemma ThreeCanMiss()
    ensures var s := Run(ONLY_RESET, Boot(false), [TooLong()]);
            var ops := [LOOK, RESET_NOW, TooLong(), LOOK, LOOK];
            NeverPolls(ONLY_RESET, s, ops) && Gets(ops) == 3
  {
    hide Step;
    hide Starves;
    hide Polls;
    var cfg := ONLY_RESET;
    var s1 := Boot(false).(owed := FC.Credits([FC.Entry(0, 1)], 0));
    TooLongIsOwed(Boot(false));
    RunOne(cfg, Boot(false), TooLong());
    CreditIsDue(s1);
    var s2 := s1.(owed := FC.NOTHING_OWED, creditLast := true);
    ResetIsTaken(s2);
    var s3 := Step(cfg, s2, RESET_NOW);
    TooLongIsOwed(s3);
    var s4 := s3.(owed := FC.Credits([FC.Entry(0, 1)], 0));
    EventIsNext(s4);
    var s5 := s4.(main := None, commandLast := true);
    CreditIsDue(s5);
    var s6 := s5.(owed := FC.NOTHING_OWED, creditLast := true);
    assert NeverPolls(cfg, s6, []);
    MissesThen(cfg, s5, LOOK, []);
    MissesThen(cfg, s4, LOOK, [LOOK] + []);
    MissesThen(cfg, s3, TooLong(), [LOOK] + ([LOOK] + []));
    MissesThen(cfg, s2, RESET_NOW, [TooLong()] + ([LOOK] + ([LOOK] + [])));
    MissesThen(cfg, s1, LOOK, [RESET_NOW] + ([TooLong()] + ([LOOK] + ([LOOK] + []))));
    assert [LOOK, RESET_NOW, TooLong(), LOOK, LOOK]
        == [LOOK] + ([RESET_NOW] + ([TooLong()] + ([LOOK] + ([LOOK] + []))));
  }

  lemma EventIsNext(s: Sdc)
    requires s.main.Some? && |s.main.value| <= 260 && |s.owed.entries| <= FC.HANDLES
    ensures Starves(s, LOOK) && Step(ONLY_RESET, s, LOOK) == s.(main := None, commandLast := true)
  {
  }

  lemma RunOne(cfg: Config, s: Sdc, op: Op)
    requires cfg.cap >= 6 && Bounded(s)
    ensures Run(cfg, s, [op]) == Step(cfg, s, op)
  {
    StepIsBounded(cfg, s, op);
    hide Step;
    assert [op][1..] == [];
  }

  lemma MissesThen(cfg: Config, s: Sdc, op: Op, rest: seq<Op>)
    requires cfg.cap >= 6 && Bounded(s) && Bounded(Step(cfg, s, op))
    requires (op.Fetch? ==> Starves(s, op)) && NeverPolls(cfg, Step(cfg, s, op), rest)
    ensures NeverPolls(cfg, s, [op] + rest) && Gets([op] + rest) == Bit(op.Fetch?) + Gets(rest)
  {
    hide Step;
    hide Starves;
    assert ([op] + rest)[1..] == rest;
  }

  // ---- Advertising families ----

  /** The handler of the main table this step calls, if any. */
  function CallMade(cfg: Config, s: Sdc, op: Op): seq<AG.Call> {
    if op.Command? && !Busy(s) && |op.packet| >= 3 && !cfg.supplemental(CD.Opcode(op.packet))
       && ReachesHandler(cfg, s, op.packet, op.reply)
    then [AG.CallOf(AG.Arrival(op.packet, op.reply))] else []
  }

  function Calls(cfg: Config, s: Sdc, ops: seq<Op>): seq<AG.Call>
    requires cfg.cap >= 6 && Bounded(s)
    decreases |ops|
  {
    if ops == [] then []
    else
      StepIsBounded(cfg, s, ops[0]);
      CallMade(cfg, s, ops[0]) + Calls(cfg, Step(cfg, s, ops[0]), ops[1..])
  }

  lemma GuardStep(cfg: Config, s: Sdc, op: Op, c: AG.Choice) returns (d: AG.Choice)
    requires cfg.cap >= 6 && Bounded(s) && c.chosen == s.chosen && AG.Sound(c)
    ensures d.chosen == Step(cfg, s, op).chosen && d.calls == c.calls + CallMade(cfg, s, op) && AG.Sound(d)
  {
    hide CD.Answer;
    hide CD.Screen;
    hide AG.Sound;
    hide PutAcl;
    hide LocalComplete;
    hide Candidate;
    hide Forward;
    hide Read;
    d := c;
    assert c.calls + [] == c.calls;
    if op.Command? {
      OnlyWhole(cfg, s, op.packet, op.reply);
      ShortIsScreened(cfg, op.packet);
      if !Busy(s) && !(|op.packet| >= 3 && cfg.supplemental(CD.Opcode(op.packet))) {
        d := AG.Arrive(cfg.rows, c, AG.Arrival(op.packet, op.reply));
        AG.ArriveIsSound(cfg.rows, c, AG.Arrival(op.packet, op.reply));
      }
    } else if op.AclData? {
      PutAclFrame(cfg, s, op.packet, op.answer);
    } else if op.Fetch? {
      ForwardFrame(s.(commandLast := false, creditLast := false), Read(op.polled));
    }
  }

  lemma ShortIsScreened(cfg: Config, packet: seq<byte>)
    ensures CD.Screen(cfg.rows, packet).Reaches? ==> |packet| >= 3
  {
  }

  lemma {:induction false} CallsAreExclusive(cfg: Config, s: Sdc, ops: seq<Op>, c: AG.Choice)
    requires cfg.cap >= 6 && Bounded(s) && c.chosen == s.chosen && AG.Sound(c)
    ensures AG.Exclusive(c.calls + Calls(cfg, s, ops))
    decreases |ops|
  {
    hide Step;
    hide CallMade;
    hide AG.Exact;
    hide AG.Exclusive;
    if ops == [] {
      assert c.calls + [] == c.calls;
    } else {
      StepIsBounded(cfg, s, ops[0]);
      var d := GuardStep(cfg, s, ops[0], c);
      CallsAreExclusive(cfg, Step(cfg, s, ops[0]), ops[1..], d);
      assert c.calls + Calls(cfg, s, ops) == d.calls + Calls(cfg, Step(cfg, s, ops[0]), ops[1..]);
    }
  }

  /** Through both dispatchers, deferrals and all: between successful resets one family reaches its handlers. */
  lemma FamiliesAreExclusiveOverRuns(cfg: Config, nop: bool, ops: seq<Op>)
    requires cfg.cap >= 6
    ensures AG.Exclusive(Calls(cfg, Boot(nop), ops))
  {
    CallsAreExclusive(cfg, Boot(nop), ops, AG.FRESH);
    assert AG.FRESH.calls + Calls(cfg, Boot(nop), ops) == Calls(cfg, Boot(nop), ops);
  }

  // ---- Every packet is well formed ----

  lemma CutIsSelfDelimiting(kind: H4.Kind, buffer: seq<byte>)
    ensures Cut(kind, buffer).Packet? ==>
              H4.SelfDelimiting(Cut(kind, buffer).packet) && Cut(kind, buffer).packet.kind == kind
              && Cut(kind, buffer).packet.body <= buffer
  {
  }

  /** Whatever comes out is of a length the host's parser agrees with. */
  lemma OutputIsSelfDelimiting(cfg: Config, s: Sdc, cap: nat, polled: Polled)
    requires cfg.cap >= 6 && Bounded(s) && Shaped(cfg, s)
    requires polled.Message? ==> |polled.buffer| == cap
    ensures Get(s, cap, polled).0.Packet? ==>
              H4.SelfDelimiting(Get(s, cap, polled).0.packet) && |Get(s, cap, polled).0.packet.body| <= cap
  {
    hide FC.CreditEvent;
    hide Cut;
    hide Patched;
    if s.main.Some? {
      PatchedFacts(cfg.cap, s.main.value);
      PatchedLength(s.main.value);
    }
    FC.CreditEventRoundTrip(s.owed.entries);
    if polled.Message? && KindOf(polled.source).Some? {
      CutIsSelfDelimiting(KindOf(polled.source).value, polled.buffer);
    }
  }

  lemma {:induction false} RunIsShaped(cfg: Config, s: Sdc, ops: seq<Op>)
    requires cfg.cap >= 6 && Bounded(s) && Shaped(cfg, s)
    ensures Shaped(cfg, Run(cfg, s, ops))
    decreases |ops|
  {
    hide Shaped;
    hide Step;
    if ops != [] {
      StepIsBounded(cfg, s, ops[0]);
      StepIsShaped(cfg, s, ops[0]);
      RunIsShaped(cfg, Step(cfg, s, ops[0]), ops[1..]);
    }
  }

  lemma PatchedLength(e: seq<byte>)
    ensures |Patched(e)| == |e|
  {
  }
}
