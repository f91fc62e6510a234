/** The accounting of module FlowControl, carried through every step of the routing layer. */
module SdcAccounting {
  import opened Octets
  import opened SdcRouting
  import CD = CommandDispatch
  import AG = AdvertisingGuard
  import FC = FlowControl
  import SdcRuns

  /** What a step means to the table of packets in flight. */
  function AclOpOf(cfg: Config, s: Sdc, op: Op): Option<FC.AclOp> {
    match op
    case Command(packet, reply, limit) =>
      if SdcRuns.Resets(cfg, s, op) then Some(FC.HciReset)
      else if LimitReported(cfg, s, op) then Some(FC.LimitSet(limit))
      else None
    case AclData(packet, answer) =>
      if |packet| < 4 || |packet| - 4 > ACL_MAX_PAYLOAD then None
      else Some(FC.Offered(FC.HandleOf(packet), answer == Taken))
    case IsoData(_) => None
    case Fetch(cap, polled) =>
      if Polls(s, cap) && IsEvent(Read(polled)) then Some(FC.FromController(Read(polled).packet.body)) else None
  }

  /** LE Read Buffer Size succeeded: the host has been told its limit. */
  predicate LimitReported(cfg: Config, s: Sdc, op: Op) {
    && op.Command? && !Busy(s) && |op.packet| >= 3 && !cfg.supplemental(CD.Opcode(op.packet))
    && ReachesHandler(cfg, s, op.packet, op.reply) && op.reply.status == CD.SUCCESS
    && (CD.Opcode(op.packet) == READ_BUFFER_SIZE || CD.Opcode(op.packet) == READ_BUFFER_SIZE_V2)
  }

  function Applied(a: FC.Acl, op: Option<FC.AclOp>, enforce: bool): FC.Acl {
    match op
    case None => a
    case Some(o) => FC.AclStep(a, o, enforce)
  }

  lemma CommandAcl(cfg: Config, s: Sdc, op: Op)
    requires cfg.cap >= 6 && op.Command?
    ensures PutCommand(cfg, s, op.packet, op.reply, op.limit).1.acl == Applied(s.acl, AclOpOf(cfg, s, op), cfg.enforce)
    ensures PutCommand(cfg, s, op.packet, op.reply, op.limit).1.owed
         == if SdcRuns.Resets(cfg, s, op) then s.owed.(entries := []) else s.owed
  {
    hide CD.Answer;
    hide AG.Arrive;
    hide AG.Refusal;
    hide LocalComplete;
    hide Candidate;
    OnlyWhole(cfg, s, op.packet, op.reply);
  }

  lemma StepAcl(cfg: Config, s: Sdc, op: Op)
    requires cfg.cap >= 6 && Bounded(s)
    ensures Step(cfg, s, op).acl == Applied(s.acl, AclOpOf(cfg, s, op), cfg.enforce)
  {
    hide PutCommand;
    hide FC.Track;
    hide FC.Owe;
    hide FC.Put;
    hide FC.CreditEvent;
    hide Read;
    hide SdcRuns.Resets;
    hide LimitReported;
    if op.Command? {
      CommandAcl(cfg, s, op);
    }
  }

  function AclTrace(cfg: Config, s: Sdc, ops: seq<Op>): seq<FC.AclOp>
    requires cfg.cap >= 6 && Bounded(s)
    decreases |ops|
  {
    if ops == [] then []
    else
      StepIsBounded(cfg, s, ops[0]);
      var rest := AclTrace(cfg, Step(cfg, s, ops[0]), ops[1..]);
      match AclOpOf(cfg, s, ops[0])
      case None => rest
      case Some(o) => [o] + rest
  }

  /** The table of the whole layer is the table of module FlowControl run on its trace. */
  lemma {:induction false} RunIsAclRun(cfg: Config, s: Sdc, ops: seq<Op>)
    requires cfg.cap >= 6 && Bounded(s)
    ensures Run(cfg, s, ops).acl == FC.AclRun(s.acl, AclTrace(cfg, s, ops), cfg.enforce)
    decreases |ops|
  {
    hide Step;
    hide AclOpOf;
    hide FC.AclStep;
    if ops != [] {
      StepIsBounded(cfg, s, ops[0]);
      StepAcl(cfg, s, ops[0]);
      RunIsAclRun(cfg, Step(cfg, s, ops[0]), ops[1..]);
      var rest := AclTrace(cfg, Step(cfg, s, ops[0]), ops[1..]);
      if AclOpOf(cfg, s, ops[0]).Some? {
        assert ([AclOpOf(cfg, s, ops[0]).value] + rest)[1..] == rest;
      }
    }
  }

  /** Over any run, total in flight equals the sum of the links, handles distinct, unless the 16-bit total wrapped. */
  lemma AccountingHoldsOverRuns(cfg: Config, nop: bool, ops: seq<Op>)
    requires cfg.cap >= 6 && FC.NoWrap(Boot(nop).acl, AclTrace(cfg, Boot(nop), ops), cfg.enforce)
    ensures FC.Tidy(Run(cfg, Boot(nop), ops).acl)
  {
    RunIsAclRun(cfg, Boot(nop), ops);
    FC.AccountingHolds(Boot(nop).acl, AclTrace(cfg, Boot(nop), ops), cfg.enforce);
  }

  /** Once within an enforced limit that is not changed, always within it. */
  lemma LimitHoldsOverRuns(cfg: Config, s: Sdc, ops: seq<Op>)
    requires cfg.cap >= 6 && Bounded(s) && cfg.enforce
    requires FC.Tidy(s.acl) && 0 < s.acl.limit && s.acl.total <= s.acl.limit
    requires forall o :: o in AclTrace(cfg, s, ops) ==> !o.LimitSet?
    ensures var a := Run(cfg, s, ops).acl; FC.Tidy(a) && a.limit == s.acl.limit && a.total <= a.limit
  {
    hide FC.Tidy;
    hide AclTrace;
    hide Run;
    RunIsAclRun(cfg, s, ops);
    FC.LimitHolds(s.acl, AclTrace(cfg, s, ops));
  }

  // ---- Credits ----

  /** An ACL packet the host has spent a credit on and the controller will never count back. */
  predicate Refuses(cfg: Config, s: Sdc, packet: seq<byte>, answer: Taking) {
    && |packet| >= 4
    && (|packet| - 4 > ACL_MAX_PAYLOAD || FC.Guarded(s.acl, FC.HandleOf(packet), cfg.enforce).0 || answer == Failed)
  }

  /** A get that returns a synthetic credit event. */
  predicate Credits(s: Sdc, op: Op) {
    op.Fetch? && s.main.None? && s.compat.None? && CreditDue(s, op.cap)
  }

  /** One link's refused packets since the last reset, the sent ones read out of the packets that left. */
  function Kept(cfg: Config, l: FC.Ledger, s: Sdc, op: Op, g: FC.handle): FC.Ledger
    requires cfg.cap >= 6 && |s.owed.entries| <= FC.HANDLES
  {
    match op
    case Command(_, _, _) => if SdcRuns.Resets(cfg, s, op) then FC.Ledger(0, 0, 0, 0) else l
    case AclData(packet, answer) =>
      if Refuses(cfg, s, packet, answer) && FC.HandleOf(packet) == g then
        FC.Ledger(l.refused + 1, l.sent,
                  l.lost + Bit(Step(cfg, s, op).owed.overflow > s.owed.overflow),
                  l.wraps + Bit(FC.Tracks(s.owed.entries, g) && FC.Count(s.owed.entries, g) == 0xFFFF))
      else l
    case IsoData(_) => l
    case Fetch(cap, polled) =>
      if Credits(s, op) && |Get(s, cap, polled).0.packet.body| >= 3
      then l.(sent := l.sent + FC.Claimed(FC.PairsFrom(Get(s, cap, polled).0.packet.body, 0), g)) else l
  }

  /** An ACL packet adds to the credits owed exactly when it is refused. */
  lemma RefusedIsOwed(cfg: Config, s: Sdc, packet: seq<byte>, answer: Taking)
    ensures PutAcl(cfg, s, packet, answer).1.owed
         == if Refuses(cfg, s, packet, answer) then FC.Owe(s.owed, FC.HandleOf(packet)) else s.owed
    ensures PutAcl(cfg, s, packet, answer).0
            <==> |packet| < 4 || Refuses(cfg, s, packet, answer) || answer == Taken
  {
    hide FC.Owe;
    hide FC.Put;
    hide FC.AtLimit;
  }

  lemma StepConserves(cfg: Config, l: FC.Ledger, s: Sdc, op: Op, g: FC.handle)
    requires cfg.cap >= 6 && Bounded(s) && FC.Conserved(l, s.owed, g)
    ensures FC.Conserved(Kept(cfg, l, s, op, g), Step(cfg, s, op).owed, g)
  {
    hide PutCommand;
    hide PutAcl;
    hide FC.Owe;
    hide FC.Index;
    hide FC.CreditEvent;
    hide FC.PairsFrom;
    hide Forward;
    hide Read;
    hide Patched;
    hide SdcRuns.Resets;
    hide Refuses;
    if op.Command? {
      CommandAcl(cfg, s, op);
    } else if op.AclData? {
      RefusedIsOwed(cfg, s, op.packet, op.answer);
      ShortIsNotRefused(cfg, s, op.packet, op.answer);
      if |op.packet| >= 4 {
        FC.OweCounts(s.owed, FC.HandleOf(op.packet), g);
        OverflowFacts(s.owed, FC.HandleOf(op.packet));
      }
    } else if op.Fetch? {
      ForwardFrame(s.(commandLast := false, creditLast := false), Read(op.polled));
      FC.CreditEventRoundTrip(s.owed.entries);
      FC.ClaimedIsCount(s.owed.entries, g);
    }
  }

  lemma ShortIsNotRefused(cfg: Config, s: Sdc, packet: seq<byte>, answer: Taking)
    ensures Refuses(cfg, s, packet, answer) ==> |packet| >= 4
  {
  }

  /** A credit is lost only for a link the full table does not have. */
  lemma OverflowFacts(c: FC.Credits, h: FC.handle)
    ensures FC.Owe(c, h).overflow > c.overflow <==> !FC.Tracks(c.entries, h) && |c.entries| >= FC.HANDLES
    ensures !FC.Tracks(c.entries, h) ==> FC.Count(c.entries, h) == 0
  {
  }

  function KeptRun(cfg: Config, l: FC.Ledger, s: Sdc, ops: seq<Op>, g: FC.handle): FC.Ledger
    requires cfg.cap >= 6 && Bounded(s)
    decreases |ops|
  {
    if ops == [] then l
    else
      StepIsBounded(cfg, s, ops[0]);
      KeptRun(cfg, Kept(cfg, l, s, ops[0], g), Step(cfg, s, ops[0]), ops[1..], g)
  }

  lemma {:induction false} RunConserves(cfg: Config, l: FC.Ledger, s: Sdc, ops: seq<Op>, g: FC.handle)
    requires cfg.cap >= 6 && Bounded(s) && FC.Conserved(l, s.owed, g)
    ensures FC.Conserved(KeptRun(cfg, l, s, ops, g), Run(cfg, s, ops).owed, g)
    decreases |ops|
  {
    hide Step;
    hide Kept;
    hide FC.Conserved;
    if ops != [] {
      StepIsBounded(cfg, s, ops[0]);
      StepConserves(cfg, l, s, ops[0], g);
      RunConserves(cfg, Kept(cfg, l, s, ops[0], g), Step(cfg, s, ops[0]), ops[1..], g);
    }
  }

  /**
   Over any run from power-up, for every link: packets refused since the last reset are the
   credits the host was told of, plus those still owed, plus those lost to a full table,
   plus whole turns of the 16-bit count.
   */
  lemma CreditsAreConservedOverRuns(cfg: Config, nop: bool, ops: seq<Op>, g: FC.handle)
    requires cfg.cap >= 6
    ensures var l := KeptRun(cfg, FC.Ledger(0, 0, 0, 0), Boot(nop), ops, g);
            l.refused == l.sent + FC.Count(Run(cfg, Boot(nop), ops).owed.entries, g) + l.lost + 0x1_0000 * l.wraps
  {
    RunConserves(cfg, FC.Ledger(0, 0, 0, 0), Boot(nop), ops, g);
  }

  // ---- All links together ----

  /** Every link's refused packets since the last reset, against the overflow counter the layer keeps. */
  datatype Totals = Totals(refused: nat, told: nat, turns: nat, overflowAtReset: nat)

  function Totalled(cfg: Config, l: Totals, s: Sdc, op: Op): Totals
    requires cfg.cap >= 6 && |s.owed.entries| <= FC.HANDLES
  {
    match op
    case Command(_, _, _) => if SdcRuns.Resets(cfg, s, op) then Totals(0, 0, 0, s.owed.overflow) else l
    case AclData(packet, answer) =>
      if Refuses(cfg, s, packet, answer) then
        l.(refused := l.refused + 1,
           turns := l.turns + Bit(FC.Count(s.owed.entries, FC.HandleOf(packet)) == 0xFFFF))
      else l
    case IsoData(_) => l
    case Fetch(cap, polled) =>
      if Credits(s, op) && |Get(s, cap, polled).0.packet.body| >= 3
      then l.(told := l.told + FC.Sum(FC.PairsFrom(Get(s, cap, polled).0.packet.body, 0))) else l
  }

  predicate Balanced(l: Totals, c: FC.Credits) {
    l.overflowAtReset <= c.overflow
    && l.refused == l.told + FC.Sum(c.entries) + (c.overflow - l.overflowAtReset) + 0x1_0000 * l.turns
  }

  lemma StepBalances(cfg: Config, l: Totals, s: Sdc, op: Op)
    requires cfg.cap >= 6 && Bounded(s) && Balanced(l, s.owed)
    ensures Balanced(Totalled(cfg, l, s, op), Step(cfg, s, op).owed)
  {
    hide PutCommand;
    hide PutAcl;
    hide FC.Owe;
    hide FC.Index;
    hide FC.Count;
    hide FC.CreditEvent;
    hide FC.PairsFrom;
    hide Forward;
    hide Read;
    hide Patched;
    hide SdcRuns.Resets;
    hide Refuses;
    if op.Command? {
      CommandAcl(cfg, s, op);
    } else if op.AclData? {
      RefusedIsOwed(cfg, s, op.packet, op.answer);
      ShortIsNotRefused(cfg, s, op.packet, op.answer);
      if |op.packet| >= 4 {
        FC.OweSum(s.owed, FC.HandleOf(op.packet));
      }
    } else if op.Fetch? {
      ForwardFrame(s.(commandLast := false, creditLast := false), Read(op.polled));
      FC.CreditEventRoundTrip(s.owed.entries);
    }
  }

  function TotalledRun(cfg: Config, l: Totals, s: Sdc, ops: seq<Op>): Totals
    requires cfg.cap >= 6 && Bounded(s)
    decreases |ops|
  {
    if ops == [] then l
    else
      StepIsBounded(cfg, s, ops[0]);
      TotalledRun(cfg, Totalled(cfg, l, s, ops[0]), Step(cfg, s, ops[0]), ops[1..])
  }

  lemma {:induction false} RunBalances(cfg: Config, l: Totals, s: Sdc, ops: seq<Op>)
    requires cfg.cap >= 6 && Bounded(s) && Balanced(l, s.owed)
    ensures Balanced(TotalledRun(cfg, l, s, ops), Run(cfg, s, ops).owed)
    decreases |ops|
  {
    hide Step;
    hide Totalled;
    hide Balanced;
    if ops != [] {
      StepIsBounded(cfg, s, ops[0]);
      StepBalances(cfg, l, s, ops[0]);
      RunBalances(cfg, Totalled(cfg, l, s, ops[0]), Step(cfg, s, ops[0]), ops[1..]);
    }
  }

  /**
   Over any run, all links together: packets refused since the last reset are the credits
   told, plus those owed, plus what the overflow counter has gained since then, plus
   whole turns of the 16-bit counts.
   */
  lemma CreditTotalsAreConserved(cfg: Config, nop: bool, ops: seq<Op>)
    requires cfg.cap >= 6
    ensures Balanced(TotalledRun(cfg, Totals(0, 0, 0, 0), Boot(nop), ops), Run(cfg, Boot(nop), ops).owed)
  {
    NothingToBalance(nop);
    hide Balanced;
    RunBalances(cfg, Totals(0, 0, 0, 0), Boot(nop), ops);
  }

  lemma NothingToBalance(nop: bool)
    ensures Balanced(Totals(0, 0, 0, 0), Boot(nop).owed)
  {
  }
}
