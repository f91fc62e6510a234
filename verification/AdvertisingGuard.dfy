/**
 Legacy and extended advertising commands, Core Vol 4 Part E section 3.1.1: the first
 family a host uses after a reset is the only one it may use until the next.
 */
module AdvertisingGuard {
  import opened Octets
  import opened CommandDispatch

  datatype Family = Neither | Legacy | Extended

  const HCI_RESET: u16 := 0x0C03

  function FamilyOf(opcode: u16): Family {
    if 0x2006 <= opcode <= 0x200D then Legacy
    else if || 0x2035 <= opcode <= 0x204A || opcode == 0x205C || opcode == 0x205D
            || opcode == 0x207F || 0x2082 <= opcode <= 0x2086 then Extended
    else Neither
  }

  /**
   The two families, opcode by opcode: the advertising, scanning and initiating commands of
   the legacy set; those of the extended set with periodic advertising, its lists and
   transfers, and its responses.
   */
  lemma FamilyTable(opcode: u16)
    ensures FamilyOf(opcode) == Legacy
       <==> opcode in {0x2006, 0x2007, 0x2008, 0x2009, 0x200A, 0x200B, 0x200C, 0x200D}
    ensures FamilyOf(opcode) == Extended
       <==> opcode in {0x2035, 0x2036, 0x2037, 0x2038, 0x2039, 0x203A, 0x203B, 0x203C, 0x203D, 0x203E, 0x203F,
                       0x2040, 0x2041, 0x2042, 0x2043, 0x2044, 0x2045, 0x2046, 0x2047, 0x2048, 0x2049, 0x204A,
                       0x205C, 0x205D, 0x207F, 0x2082, 0x2083, 0x2084, 0x2085, 0x2086}
  {
  }

  /** The guard's answer, and the choice it leaves behind. */
  function Guard(chosen: Family, opcode: u16): (byte, Family) {
    var needed := FamilyOf(opcode);
    if needed == Neither then (SUCCESS, chosen)
    else if chosen == Neither then (SUCCESS, needed)
    else if chosen != needed then (DISALLOWED, chosen)
    else (SUCCESS, chosen)
  }

  /** A command that reached its handler; `reset` says it was an HCI Reset that succeeded. */
  datatype Call = Call(opcode: u16, reset: bool)

  datatype Arrival = Arrival(packet: seq<byte>, reply: Reply)

  datatype Choice = Choice(chosen: Family, calls: seq<Call>)

  function CallOf(a: Arrival): Call
    requires |a.packet| >= 2
  {
    Call(Opcode(a.packet), Opcode(a.packet) == HCI_RESET && a.reply.status == SUCCESS)
  }

  /** The status the guard would refuse this arrival with; a screened-out command never asks it. */
  function Refusal(rows: seq<Row>, c: Choice, a: Arrival): byte {
    if Screen(rows, a.packet).Reaches? then Guard(c.chosen, Opcode(a.packet)).0 else SUCCESS
  }

  /** One accepted command: screened, guarded, handled. */
  function Arrive(rows: seq<Row>, c: Choice, a: Arrival): Choice {
    if !Screen(rows, a.packet).Reaches? then c
    else
      var (refuse, chosen) := Guard(c.chosen, Opcode(a.packet));
      if refuse != SUCCESS then c.(chosen := chosen)
      else Choice(if CallOf(a).reset then Neither else chosen, c.calls + [CallOf(a)])
  }

  function Run(rows: seq<Row>, c: Choice, arrivals: seq<Arrival>): Choice
    decreases |arrivals|
  {
    if arrivals == [] then c
    else Run(rows, Arrive(rows, c, arrivals[0]), arrivals[1..])
  }

  /** A command of family `f` has been handled, and no reset has succeeded since. */
  ghost predicate InUse(calls: seq<Call>, f: Family) {
    exists i :: 0 <= i < |calls| && FamilyOf(calls[i].opcode) == f && NoResetAfter(calls, i)
  }

  predicate NoResetAfter(calls: seq<Call>, i: nat) {
    forall k :: i <= k < |calls| ==> !calls[k].reset
  }

  /** The static choice is exactly the family in use. */
  ghost predicate Exact(c: Choice) {
    && (c.chosen == Neither <==> !InUse(c.calls, Legacy) && !InUse(c.calls, Extended))
    && (c.chosen == Legacy <==> InUse(c.calls, Legacy))
    && (c.chosen == Extended <==> InUse(c.calls, Extended))
  }

  /** Two calls of different families always have a successful reset between them. */
  ghost predicate Exclusive(calls: seq<Call>) {
    forall i, j :: 0 <= i < j < |calls| && Conflict(calls[i], calls[j]) ==> ResetBetween(calls, i, j)
  }

  predicate Conflict(a: Call, b: Call) {
    FamilyOf(a.opcode) != Neither && FamilyOf(b.opcode) != Neither && FamilyOf(a.opcode) != FamilyOf(b.opcode)
  }

  ghost predicate ResetBetween(calls: seq<Call>, i: nat, j: nat)
    requires i < j <= |calls|
  {
    exists k :: i < k < j && calls[k].reset
  }

  lemma InUseSnoc(calls: seq<Call>, call: Call, f: Family)
    requires f != Neither && (call.reset ==> FamilyOf(call.opcode) == Neither)
    ensures InUse(calls + [call], f) <==> !call.reset && (InUse(calls, f) || FamilyOf(call.opcode) == f)
  {
    var more := calls + [call];
    if InUse(more, f) {
      var i :| 0 <= i < |more| && FamilyOf(more[i].opcode) == f && NoResetAfter(more, i);
      assert !more[|calls|].reset;
      if i < |calls| {
        assert forall k :: i <= k < |calls| ==> calls[k] == more[k];
        assert NoResetAfter(calls, i) && calls[i] == more[i];
      }
    }
    if !call.reset && InUse(calls, f) {
      var i :| 0 <= i < |calls| && FamilyOf(calls[i].opcode) == f && NoResetAfter(calls, i);
      assert more[i] == calls[i] && NoResetAfter(more, i);
    }
    if !call.reset && FamilyOf(call.opcode) == f {
      assert more[|calls|] == call && NoResetAfter(more, |calls|);
    }
  }

  lemma InUseAt(calls: seq<Call>, i: nat)
    requires i < |calls| && NoResetAfter(calls, i)
    ensures InUse(calls, FamilyOf(calls[i].opcode))
  {
  }

  /** An earlier call that conflicts with one allowed now has been followed by a reset. */
  lemma ConflictIsReset(c: Choice, i: nat, call: Call)
    requires Exact(c) && i < |c.calls| && Conflict(c.calls[i], call)
    requires FamilyOf(call.opcode) == Neither || c.chosen == Neither || c.chosen == FamilyOf(call.opcode)
    ensures !NoResetAfter(c.calls, i)
  {
    hide NoResetAfter;
    hide InUse;
    hide FamilyOf;
    if NoResetAfter(c.calls, i) {
      InUseAt(c.calls, i);
    }
  }

  lemma ExclusiveSnoc(c: Choice, call: Call)
    requires Exclusive(c.calls) && Exact(c)
    requires forall i :: 0 <= i < |c.calls| && c.calls[i].reset ==> FamilyOf(c.calls[i].opcode) == Neither
    requires FamilyOf(call.opcode) == Neither || c.chosen == Neither || c.chosen == FamilyOf(call.opcode)
    ensures Exclusive(c.calls + [call])
  {
    var more := c.calls + [call];
    forall i, j | 0 <= i < j < |more| && Conflict(more[i], more[j]) ensures ResetBetween(more, i, j) {
      if j < |c.calls| {
        assert ResetBetween(c.calls, i, j);
        var k :| i < k < j && c.calls[k].reset;
        assert more[k].reset;
      } else {
        ConflictIsReset(c, i, call);
        var k :| i <= k < |c.calls| && c.calls[k].reset;
        assert more[k].reset;
      }
    }
  }

  ghost predicate Sound(c: Choice) {
    && Exact(c) && Exclusive(c.calls)
    && forall i :: 0 <= i < |c.calls| && c.calls[i].reset ==> FamilyOf(c.calls[i].opcode) == Neither
  }

  lemma ArriveIsSound(rows: seq<Row>, c: Choice, a: Arrival)
    requires Sound(c)
    ensures Sound(Arrive(rows, c, a))
  {
    if Screen(rows, a.packet).Reaches? && Refusal(rows, c, a) == SUCCESS {
      var call := CallOf(a);
      InUseSnoc(c.calls, call, Legacy);
      InUseSnoc(c.calls, call, Extended);
      ExclusiveSnoc(c, call);
    }
  }

  lemma {:induction false} RunIsSound(rows: seq<Row>, c: Choice, arrivals: seq<Arrival>)
    requires Sound(c)
    ensures Sound(Run(rows, c, arrivals))
    decreases |arrivals|
  {
    hide Sound;
    hide Arrive;
    if arrivals != [] {
      ArriveIsSound(rows, c, arrivals[0]);
      RunIsSound(rows, Arrive(rows, c, arrivals[0]), arrivals[1..]);
    }
  }

  const FRESH := Choice(Neither, [])

  /**
   Family exclusivity over whole runs: whatever malformed, refused or failing commands
   are interleaved, two commands of different families reach their handlers only with a
   successful reset between them.
   */
  lemma FamiliesAreExclusive(rows: seq<Row>, arrivals: seq<Arrival>, i: nat, j: nat)
    requires var calls := Run(rows, FRESH, arrivals).calls;
             i < j < |calls| && Conflict(calls[i], calls[j])
    ensures ResetBetween(Run(rows, FRESH, arrivals).calls, i, j)
  {
    RunIsSound(rows, FRESH, arrivals);
  }

  /**
   A refusal is neither early nor late: a well-formed family command is turned away exactly
   when the other family is in use, as Command Disallowed in the shape of its own row.
   */
  lemma RefusedIffOtherInUse(rows: seq<Row>, arrivals: seq<Arrival>, a: Arrival, cap: nat)
    requires cap >= 6 && Screen(rows, a.packet).Reaches?
    ensures var c := Run(rows, FRESH, arrivals);
            var refuse := Refusal(rows, c, a);
            var other := match FamilyOf(Opcode(a.packet)) case Legacy => Extended case _ => Legacy;
            && (refuse != SUCCESS <==> FamilyOf(Opcode(a.packet)) != Neither && InUse(c.calls, other))
            && (refuse != SUCCESS ==>
                  && Arrive(rows, c, a) == c
                  && Answer(cap, rows, a.packet, refuse, a.reply)
                     == Some(ErrorEvent(cap, Screen(rows, a.packet).row, Opcode(a.packet), DISALLOWED)))
  {
    RunIsSound(rows, FRESH, arrivals);
  }

  /** A refusal on the wire: Command Disallowed, in the shape of the command's own row. */
  lemma DisallowedOnWire(rows: seq<Row>, c: Choice, a: Arrival, cap: nat, i: nat)
    requires cap >= 6 && RowOf(rows, a.packet, i) && Refusal(rows, c, a) != SUCCESS
    ensures Answer(cap, rows, a.packet, Refusal(rows, c, a), a.reply)
         == Some(ErrorOnWire(cap, rows[i], a.packet, 0x0C))
  {
    hide Find;
    hide ErrorEvent;
    hide ErrorOnWire;
    hide Opcode;
    hide OpcodeOnWire;
    RowIsFound(rows, a.packet, i);
    ErrorGoesOut(cap, rows[i], a.packet, DISALLOWED);
  }

  /** The choice is given up by a Reset, 03 0C on the wire, that succeeded, and by nothing else. */
  lemma OnlyResetForgets(rows: seq<Row>, c: Choice, a: Arrival)
    requires Screen(rows, a.packet).Reaches?
    ensures a.packet[0] == 0x03 && a.packet[1] == 0x0C ==>
              Arrive(rows, c, a).chosen == if a.reply.status == 0 then Neither else c.chosen
    ensures !(a.packet[0] == 0x03 && a.packet[1] == 0x0C) && c.chosen != Neither ==>
              Arrive(rows, c, a).chosen == c.chosen
  {
    OpcodeIs(a.packet, 0x03, 0x0C);
    ResetOpcode();
    hide Opcode;
    hide Screen;
  }

  lemma ResetOpcode()
    ensures Le16(0x03, 0x0C) == HCI_RESET && FamilyOf(HCI_RESET) == Neither
  {
  }
}
