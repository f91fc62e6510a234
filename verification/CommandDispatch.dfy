/**
 The table-driven command dispatcher: one command in, at most one event out, shaped by
 the row of the opcode whatever goes wrong. `Answer` is the specification; the class
 builds it in place in its event buffer.
 */
module CommandDispatch {
  import opened Octets
  import H4

  datatype Response = Complete | Status | NoResponse | Unlisted(code: byte)

  datatype Row = Row(opcode: u16, paramLen: u16, returnLen: u16, response: Response, hasHandler: bool)

  /** What a handler gives back: `ret` is what the return area holds over the length it claims. */
  datatype Reply = Reply(status: byte, response: Response, ret: seq<byte>)

  const VARIABLE: u16 := 0xFFFF
  const MAX_RETURN := 251

  const SUCCESS: byte := 0x00
  const UNKNOWN_COMMAND: byte := 0x01
  const MEMORY_EXCEEDED: byte := 0x07
  const DISALLOWED: byte := 0x0C
  const INVALID_PARAMETERS: byte := 0x12
  const UNSPECIFIED: byte := 0x1F

  function Opcode(packet: seq<byte>): u16
    requires |packet| >= 2
  {
    Le16(packet[0], packet[1])
  }

  function ParamLen(packet: seq<byte>): nat
    requires |packet| >= 3
  {
    packet[2]
  }

  function Find(rows: seq<Row>, opcode: u16): Option<Row> {
    if rows == [] then None
    else if rows[0].opcode == opcode then Some(rows[0])
    else Find(rows[1..], opcode)
  }

  /** How far a command gets before anything with state is asked about it. */
  datatype Screened = Short | Unknown | Rejected(row: Row, status: byte) | Reaches(row: Row)

  function Screen(rows: seq<Row>, packet: seq<byte>): Screened {
    if |packet| < 3 then Short
    else match Find(rows, Opcode(packet))
      case None => Unknown
      case Some(row) =>
        if |packet| != 3 + ParamLen(packet) then Rejected(row, INVALID_PARAMETERS)
        else if row.paramLen != VARIABLE && row.paramLen != ParamLen(packet) then Rejected(row, INVALID_PARAMETERS)
        else if !row.hasHandler then Rejected(row, UNKNOWN_COMMAND)
        else Reaches(row)
  }

  predicate HandlerCalled(rows: seq<Row>, packet: seq<byte>, refuse: byte) {
    Screen(rows, packet).Reaches? && refuse == SUCCESS
  }

  /** Return parameters an event of this dispatcher can carry. */
  predicate Fits(cap: nat, n: nat)
    requires cap >= 6
  {
    n <= cap - 6 && n <= MAX_RETURN
  }

  function Zeros(n: nat): seq<byte> {
    seq(n, _ => 0)
  }

  function CompleteEvent(opcode: u16, status: byte, ret: seq<byte>): seq<byte>
    requires |ret| <= MAX_RETURN
  {
    [0x0E, 4 + |ret|, 1, Lo(opcode), Hi(opcode), status] + ret
  }

  function StatusEvent(opcode: u16, status: byte): seq<byte> {
    [0x0F, 4, status, 1, Lo(opcode), Hi(opcode)]
  }

  function ErrorEvent(cap: nat, row: Row, opcode: u16, status: byte): seq<byte>
    requires cap >= 6
  {
    if row.response == Status then StatusEvent(opcode, status)
    else CompleteEvent(opcode, status, if Fits(cap, row.returnLen) then Zeros(row.returnLen) else [])
  }

  /** A short return is padded to the declared length, when that fits. */
  function Padded(cap: nat, row: Row, ret: seq<byte>): (padded: seq<byte>)
    requires cap >= 6 && Fits(cap, |ret|)
    ensures Fits(cap, |padded|) && ret <= padded
    ensures Fits(cap, row.returnLen) ==> |padded| >= row.returnLen
  {
    if |ret| < row.returnLen && Fits(cap, row.returnLen) then ret + Zeros(row.returnLen - |ret|) else ret
  }

  function HandlerEvent(cap: nat, row: Row, opcode: u16, reply: Reply): Option<seq<byte>>
    requires cap >= 6
  {
    if reply.response != row.response then Some(ErrorEvent(cap, row, opcode, UNSPECIFIED))
    else if !Fits(cap, |reply.ret|) then Some(ErrorEvent(cap, row, opcode, MEMORY_EXCEEDED))
    else match row.response
      case Complete => Some(CompleteEvent(opcode, reply.status, Padded(cap, row, reply.ret)))
      case Status => Some(StatusEvent(opcode, reply.status))
      case NoResponse => None
      case Unlisted(_) => Some(CompleteEvent(opcode, UNKNOWN_COMMAND, []))
  }

  /**
   The event a command gets. `refuse` is the guard's status if it is asked, `reply`
   the handler's if it is called.
   */
  function Answer(cap: nat, rows: seq<Row>, packet: seq<byte>, refuse: byte, reply: Reply): Option<seq<byte>>
    requires cap >= 6
  {
    match Screen(rows, packet)
    case Short => None
    case Unknown => Some(CompleteEvent(Opcode(packet), UNKNOWN_COMMAND, []))
    case Rejected(row, status) => Some(ErrorEvent(cap, row, Opcode(packet), status))
    case Reaches(row) =>
      if refuse != SUCCESS then Some(ErrorEvent(cap, row, Opcode(packet), refuse))
      else HandlerEvent(cap, row, Opcode(packet), reply)
  }

  /** A row that only names an SDC function: copy in, call, copy the declared return out. */
  function GenericReply(row: Row, cap: nat, status: byte, out: seq<byte>): Reply
    requires cap >= 6 && |out| == row.returnLen
  {
    if row.returnLen > cap - 6 then Reply(MEMORY_EXCEEDED, row.response, [])
    else Reply(status, row.response, if status == SUCCESS then out else [])
  }

  /** The opcode an event answers, wherever its format puts it. */
  function Answered(e: seq<byte>): u16
    requires |e| >= 6
  {
    if e[0] == 0x0F then Le16(e[4], e[5]) else Le16(e[3], e[4])
  }

  function StatusIn(e: seq<byte>): byte
    requires |e| >= 6
  {
    if e[0] == 0x0F then e[2] else e[5]
  }

  /** One command credit, the opcode, and a length the H:4 parser agrees with. */
  predicate IsCommandEvent(e: seq<byte>, opcode: u16) {
    && |e| >= 6 && (e[0] == 0x0E || e[0] == 0x0F)
    && H4.SelfDelimiting(H4.Packet(H4.Event, e))
    && (if e[0] == 0x0F then e[3] else e[2]) == 1
    && Answered(e) == opcode
  }

  /** The response kind and the least length a row promises its host. */
  predicate ShapedBy(cap: nat, row: Row, e: seq<byte>)
    requires cap >= 6
  {
    && (row.response == Status ==> |e| == 6 && e[0] == 0x0F)
    && (row.response == Complete ==>
          |e| >= 6 && e[0] == 0x0E && (Fits(cap, row.returnLen) ==> |e| >= 6 + row.returnLen))
  }

  lemma BuiltEvents(opcode: u16, status: byte, ret: seq<byte>)
    requires |ret| <= MAX_RETURN
    ensures IsCommandEvent(CompleteEvent(opcode, status, ret), opcode)
    ensures IsCommandEvent(StatusEvent(opcode, status), opcode)
    ensures StatusIn(CompleteEvent(opcode, status, ret)) == status == StatusIn(StatusEvent(opcode, status))
  {
    Le16RoundTrip(opcode, 0, 0);
  }

  lemma ErrorIsShaped(cap: nat, row: Row, opcode: u16, status: byte)
    requires cap >= 6
    ensures var e := ErrorEvent(cap, row, opcode, status);
            IsCommandEvent(e, opcode) && |e| <= cap && ShapedBy(cap, row, e) && StatusIn(e) == status
  {
    BuiltEvents(opcode, status, if Fits(cap, row.returnLen) then Zeros(row.returnLen) else []);
  }

  lemma HandlerEventIsShaped(cap: nat, row: Row, opcode: u16, reply: Reply)
    requires cap >= 6
    ensures HandlerEvent(cap, row, opcode, reply).None?
            <==> reply.response == row.response == NoResponse && Fits(cap, |reply.ret|)
    ensures HandlerEvent(cap, row, opcode, reply).Some? ==>
              var e := HandlerEvent(cap, row, opcode, reply).value;
              IsCommandEvent(e, opcode) && |e| <= cap && ShapedBy(cap, row, e)
  {
    ErrorIsShaped(cap, row, opcode, UNSPECIFIED);
    ErrorIsShaped(cap, row, opcode, MEMORY_EXCEEDED);
    if Fits(cap, |reply.ret|) {
      BuiltEvents(opcode, reply.status, Padded(cap, row, reply.ret));
    }
    BuiltEvents(opcode, UNKNOWN_COMMAND, []);
  }

  /**
   Whatever arrives and whatever the guard and the handler say: the event names the
   command's own opcode, grants one credit, fits the buffer and is shaped by the row.
   */
  lemma AnswerIsShaped(cap: nat, rows: seq<Row>, packet: seq<byte>, refuse: byte, reply: Reply)
    requires cap >= 6
    ensures Answer(cap, rows, packet, refuse, reply).Some? ==>
              && |packet| >= 3
              && var e := Answer(cap, rows, packet, refuse, reply).value;
                 && IsCommandEvent(e, Opcode(packet)) && |e| <= cap
                 && var row := Find(rows, Opcode(packet));
                    row.Some? ==> ShapedBy(cap, row.value, e)
  {
    match Screen(rows, packet)
    case Short =>
    case Unknown => BuiltEvents(Opcode(packet), UNKNOWN_COMMAND, []);
    case Rejected(row, status) => ErrorIsShaped(cap, row, Opcode(packet), status);
    case Reaches(row) =>
      ErrorIsShaped(cap, row, Opcode(packet), refuse);
      HandlerEventIsShaped(cap, row, Opcode(packet), reply);
  }

  /** Silence has two causes only: no opcode to answer, or a row that asks for none and got what it wanted. */
  lemma AnsweredUnless(cap: nat, rows: seq<Row>, packet: seq<byte>, refuse: byte, reply: Reply)
    requires cap >= 6
    ensures Answer(cap, rows, packet, refuse, reply).None? <==>
              || |packet| < 3
              || (&& HandlerCalled(rows, packet, refuse) && Fits(cap, |reply.ret|)
                  && reply.response == Screen(rows, packet).row.response == NoResponse)
  {
    match Screen(rows, packet)
    case Short =>
    case Unknown =>
    case Rejected(_, _) =>
    case Reaches(row) => HandlerEventIsShaped(cap, row, Opcode(packet), reply);
  }

  /** The status says what was wrong: a refusal carries the guard's own, and nothing reached the handler. */
  lemma RefusalStatus(cap: nat, rows: seq<Row>, packet: seq<byte>, refuse: byte, reply: Reply)
    requires cap >= 6 && |packet| >= 3 && !HandlerCalled(rows, packet, refuse)
    ensures Answer(cap, rows, packet, refuse, reply).Some?
    ensures var e := Answer(cap, rows, packet, refuse, reply).value;
            && |e| >= 6
            && StatusIn(e) == (match Screen(rows, packet)
                               case Rejected(_, status) => status
                               case Reaches(_) => refuse
                               case _ => UNKNOWN_COMMAND)
  {
    match Screen(rows, packet)
    case Unknown => BuiltEvents(Opcode(packet), UNKNOWN_COMMAND, []);
    case Rejected(row, status) => ErrorIsShaped(cap, row, Opcode(packet), status);
    case Reaches(row) => ErrorIsShaped(cap, row, Opcode(packet), refuse);
  }

  /** What a Complete handler returned reaches the host unchanged, followed only by zero padding. */
  lemma ReturnIsDelivered(cap: nat, rows: seq<Row>, packet: seq<byte>, reply: Reply)
    requires cap >= 6 && HandlerCalled(rows, packet, SUCCESS) && Fits(cap, |reply.ret|)
    requires Screen(rows, packet).row.response == reply.response == Complete
    ensures var declared := Screen(rows, packet).row.returnLen;
            var e := Answer(cap, rows, packet, SUCCESS, reply);
            && e.Some? && |e.value| >= 6 + |reply.ret|
            && StatusIn(e.value) == reply.status
            && e.value[6..6 + |reply.ret|] == reply.ret
            && (forall k :: 6 + |reply.ret| <= k < |e.value| ==> e.value[k] == 0)
            && (|reply.ret| >= declared ==> |e.value| == 6 + |reply.ret|)
  {
    var row := Screen(rows, packet).row;
    var e := CompleteEvent(Opcode(packet), reply.status, Padded(cap, row, reply.ret));
    assert e[6..] == Padded(cap, row, reply.ret);
    assert e[6..6 + |reply.ret|] == e[6..][..|reply.ret|] == reply.ret;
  }

  /** A shared row never disagrees with itself: its answer is success at full length, or zeros at full length. */
  lemma GenericRowAnswer(cap: nat, rows: seq<Row>, packet: seq<byte>, status: byte, out: seq<byte>)
    requires cap >= 6 && HandlerCalled(rows, packet, SUCCESS)
    requires var row := Screen(rows, packet).row;
             row.response == Complete && Fits(cap, row.returnLen) && |out| == row.returnLen
    ensures var row := Screen(rows, packet).row;
            (Answer(cap, rows, packet, SUCCESS, GenericReply(row, cap, status, out))
             == Some(CompleteEvent(Opcode(packet), status, if status == SUCCESS then out else Zeros(row.returnLen))))
  {
    var row := Screen(rows, packet).row;
    if status != SUCCESS {
      assert [] + Zeros(row.returnLen) == Zeros(row.returnLen);
      assert Padded(cap, row, []) == Zeros(row.returnLen);
    }
  }

  /** A shared row without room for its declared return answers Memory Capacity Exceeded, bare. */
  lemma GenericWithoutRoom(cap: nat, rows: seq<Row>, packet: seq<byte>, status: byte, out: seq<byte>)
    requires cap >= 6 && HandlerCalled(rows, packet, SUCCESS)
    requires var row := Screen(rows, packet).row;
             row.response == Complete && row.returnLen > cap - 6 && |out| == row.returnLen
    ensures var row := Screen(rows, packet).row;
            (Answer(cap, rows, packet, SUCCESS, GenericReply(row, cap, status, out))
             == Some(CompleteEvent(Opcode(packet), 0x07, [])))
  {
  }

  /** The first row of the opcode is the one found. */
  lemma {:induction false} FindFirst(rows: seq<Row>, opcode: u16)
    ensures Find(rows, opcode).None? <==> forall r :: r in rows ==> r.opcode != opcode
    ensures Find(rows, opcode).Some? ==>
              exists i :: 0 <= i < |rows| && rows[i] == Find(rows, opcode).value && rows[i].opcode == opcode
                          && forall j :: 0 <= j < i ==> rows[j].opcode != opcode
  {
    if rows != [] && rows[0].opcode != opcode {
      FindFirst(rows[1..], opcode);
      if Find(rows, opcode).Some? {
        var i :| 0 <= i < |rows[1..]| && rows[1..][i] == Find(rows, opcode).value && rows[1..][i].opcode == opcode
                 && forall j :: 0 <= j < i ==> rows[1..][j].opcode != opcode;
        assert rows[i + 1] == Find(rows, opcode).value;
        assert forall j :: 1 <= j < i + 1 ==> rows[j] == rows[1..][j - 1];
      }
    }
  }

  lemma {:induction false} FindSkips(rows: seq<Row>, opcode: u16, n: nat)
    requires n <= |rows| && forall j :: 0 <= j < n ==> rows[j].opcode != opcode
    ensures Find(rows, opcode) == Find(rows[n..], opcode)
  {
    if n == 0 {
      assert rows[0..] == rows;
    } else {
      FindSkips(rows[1..], opcode, n - 1);
      assert rows[1..][n - 1..] == rows[n..];
    }
  }

  /** Everything the dispatcher counts. */
  datatype Counts = Counts(commands: nat, unknown: nat, invalidPackets: nat, invalidParams: nat,
                           handlerErrors: nat, handlerCalls: nat, backpressure: nat)

  function Counted(c: Counts, cap: nat, rows: seq<Row>, packet: seq<byte>, refuse: byte, reply: Reply): Counts
    requires cap >= 6
  {
    var d := c.(commands := c.commands + 1);
    match Screen(rows, packet)
    case Short => d.(invalidPackets := d.invalidPackets + 1)
    case Unknown => d.(unknown := d.unknown + 1)
    case Rejected(row, status) =>
      if |packet| != 3 + ParamLen(packet) then d.(invalidPackets := d.invalidPackets + 1)
      else if row.paramLen != VARIABLE && row.paramLen != ParamLen(packet)
      then d.(invalidParams := d.invalidParams + 1)
      else d.(handlerErrors := d.handlerErrors + 1)
    case Reaches(row) =>
      if refuse != SUCCESS then d
      else
        var called := d.(handlerCalls := d.handlerCalls + 1);
        if reply.response != row.response || !Fits(cap, |reply.ret|) || row.response.Unlisted?
        then called.(handlerErrors := called.handlerErrors + 1)
        else called
  }

  // ---- The answers, octet by octet: Core Vol 4 Part E sections 7.7.14 and 7.7.15 ----

  /** The opcode comes low octet first. */
  function OpcodeOnWire(packet: seq<byte>): int
    requires |packet| >= 2
  {
    (packet[0] as int) + 0x100 * (packet[1] as int)
  }

  lemma OpcodeOctets(packet: seq<byte>)
    requires |packet| >= 2
    ensures Opcode(packet) == OpcodeOnWire(packet)
    ensures Lo(Opcode(packet)) == packet[0] && Hi(Opcode(packet)) == packet[1]
  {
    hide Lo;
    hide Hi;
    var lo, hi := packet[0], packet[1];
    Le16RoundTrip(0, lo, hi);
  }

  lemma OpcodeIs(packet: seq<byte>, lo: byte, hi: byte)
    requires |packet| >= 2
    ensures Opcode(packet) == Le16(lo, hi) <==> packet[0] == lo && packet[1] == hi
  {
    hide Le16;
    var p, q := packet[0], packet[1];
    Le16RoundTrip(0, p, q);
    Le16RoundTrip(0, lo, hi);
  }

  lemma BareEvent(opcode: u16, status: byte)
    ensures CompleteEvent(opcode, status, []) == [0x0E, 4, 1, Lo(opcode), Hi(opcode), status]
  {
  }

  /** Row `i` is the first one for the command's opcode. */
  predicate RowOf(rows: seq<Row>, packet: seq<byte>, i: nat) {
    && |packet| >= 3 && i < |rows| && rows[i].opcode == OpcodeOnWire(packet)
    && forall j :: 0 <= j < i ==> rows[j].opcode != OpcodeOnWire(packet)
  }

  predicate NoRow(rows: seq<Row>, packet: seq<byte>) {
    |packet| >= 3 && forall r :: r in rows ==> r.opcode != OpcodeOnWire(packet)
  }

  /** An error in a row's shape: six octets of Command Status, or Command Complete and its zeros if they fit. */
  function ErrorOnWire(cap: nat, row: Row, packet: seq<byte>, status: byte): seq<byte>
    requires |packet| >= 3
  {
    if row.response == Status then [0x0F, 4, status, 1, packet[0], packet[1]]
    else if row.returnLen <= 251 && 6 + row.returnLen <= cap then
      [0x0E, 4 + row.returnLen, 1, packet[0], packet[1], status] + seq(row.returnLen, _ => 0)
    else [0x0E, 4, 1, packet[0], packet[1], status]
  }

  /** The command reaches its handler: it is as long as it says and as its row says, and nothing refuses it. */
  predicate Handled(row: Row, packet: seq<byte>, refuse: byte)
    requires |packet| >= 3
  {
    && |packet| == 3 + packet[2] as int && (row.paramLen == 0xFFFF || row.paramLen == packet[2])
    && row.hasHandler && refuse == 0
  }

  lemma RowIsFound(rows: seq<Row>, packet: seq<byte>, i: nat)
    requires RowOf(rows, packet, i)
    ensures Find(rows, Opcode(packet)) == Some(rows[i])
    ensures Lo(Opcode(packet)) == packet[0] && Hi(Opcode(packet)) == packet[1]
  {
    hide Lo;
    hide Hi;
    hide Opcode;
    hide OpcodeOnWire;
    OpcodeOctets(packet);
    FindSkips(rows, Opcode(packet), i);
  }

  lemma ErrorGoesOut(cap: nat, row: Row, packet: seq<byte>, status: byte)
    requires cap >= 6 && |packet| >= 3
    ensures ErrorEvent(cap, row, Opcode(packet), status) == ErrorOnWire(cap, row, packet, status)
  {
    hide Lo;
    hide Hi;
    hide Opcode;
    hide OpcodeOnWire;
    OpcodeOctets(packet);
  }

  /** No row: Unknown HCI Command. No opcode: nothing. */
  lemma UnknownOnWire(cap: nat, rows: seq<Row>, packet: seq<byte>, refuse: byte, reply: Reply)
    requires cap >= 6
    ensures |packet| < 3 ==> Answer(cap, rows, packet, refuse, reply) == None
    ensures NoRow(rows, packet) ==>
              Answer(cap, rows, packet, refuse, reply) == Some([0x0E, 4, 1, packet[0], packet[1], 0x01])
  {
    hide Lo;
    hide Hi;
    hide Opcode;
    hide OpcodeOnWire;
    if |packet| >= 3 {
      OpcodeOctets(packet);
      BareEvent(Opcode(packet), UNKNOWN_COMMAND);
      FindFirst(rows, Opcode(packet));
    }
  }

  /** What is refused before its handler, and with which status. */
  lemma RefusedOnWire(cap: nat, rows: seq<Row>, packet: seq<byte>, refuse: byte, reply: Reply, i: nat)
    requires cap >= 6 && RowOf(rows, packet, i) && !Handled(rows[i], packet, refuse)
    ensures Answer(cap, rows, packet, refuse, reply)
         == Some(ErrorOnWire(cap, rows[i], packet,
                             if |packet| != 3 + packet[2] as int then 0x12
                             else if rows[i].paramLen != 0xFFFF && rows[i].paramLen != packet[2] then 0x12
                             else if !rows[i].hasHandler then 0x01 else refuse))
  {
    hide Find;
    hide ErrorEvent;
    hide ErrorOnWire;
    hide Lo;
    hide Hi;
    hide Opcode;
    hide OpcodeOnWire;
    RowIsFound(rows, packet, i);
    ErrorGoesOut(cap, rows[i], packet, INVALID_PARAMETERS);
    ErrorGoesOut(cap, rows[i], packet, UNKNOWN_COMMAND);
    ErrorGoesOut(cap, rows[i], packet, refuse);
  }

  /**
   What a handler's answer becomes. A Status row reports the handler's own status; a handler
   that contradicts its row is Unspecified Error, one that returns too much is Memory
   Capacity Exceeded.
   */
  lemma HandledOnWire(cap: nat, rows: seq<Row>, packet: seq<byte>, reply: Reply, i: nat)
    requires cap >= 6 && RowOf(rows, packet, i) && Handled(rows[i], packet, 0)
    ensures var (row, n) := (rows[i], |reply.ret|);
            var declared := if n < row.returnLen <= 251 && 6 + row.returnLen <= cap then row.returnLen else n;
            (Answer(cap, rows, packet, 0, reply)
             == if reply.response != row.response then Some(ErrorOnWire(cap, row, packet, 0x1F))
                else if n > 251 || 6 + n > cap then Some(ErrorOnWire(cap, row, packet, 0x07))
                else if row.response == Complete then
                  Some([0x0E, 4 + declared, 1, packet[0], packet[1], reply.status]
                       + reply.ret + seq(declared - n, _ => 0))
                else if row.response == Status then Some([0x0F, 4, reply.status, 1, packet[0], packet[1]])
                else if row.response == NoResponse then None
                else Some([0x0E, 4, 1, packet[0], packet[1], 0x01]))
  {
    hide Find;
    hide ErrorEvent;
    hide ErrorOnWire;
    hide Padded;
    hide Lo;
    hide Hi;
    hide Opcode;
    hide OpcodeOnWire;
    RowIsFound(rows, packet, i);
    ErrorGoesOut(cap, rows[i], packet, UNSPECIFIED);
    ErrorGoesOut(cap, rows[i], packet, MEMORY_EXCEEDED);
    OpcodeOctets(packet);
    BareEvent(Opcode(packet), UNKNOWN_COMMAND);
    if Fits(cap, |reply.ret|) {
      PaddedOnWire(cap, rows[i], packet, reply);
    }
  }

  lemma PaddedOnWire(cap: nat, row: Row, packet: seq<byte>, reply: Reply)
    requires cap >= 6 && |packet| >= 3 && Fits(cap, |reply.ret|)
    requires Lo(Opcode(packet)) == packet[0] && Hi(Opcode(packet)) == packet[1]
    ensures var n := |reply.ret|;
            var declared := if n < row.returnLen <= 251 && 6 + row.returnLen <= cap then row.returnLen else n;
            (CompleteEvent(Opcode(packet), reply.status, Padded(cap, row, reply.ret))
             == [0x0E, 4 + declared, 1, packet[0], packet[1], reply.status] + reply.ret + seq(declared - n, _ => 0))
  {
    hide Lo;
    hide Hi;
    hide Opcode;
    hide OpcodeOnWire;
    assert Zeros(0) == [];
    assert reply.ret + [] == reply.ret;
  }

  /** Each command moves the counts it should, by one, and no other. */
  lemma CountsOnWire(c: Counts, cap: nat, rows: seq<Row>, packet: seq<byte>, refuse: byte, reply: Reply, i: nat)
    requires cap >= 6 && RowOf(rows, packet, i)
    ensures var (row, d) := (rows[i], Counted(c, cap, rows, packet, refuse, reply));
            var whole := |packet| == 3 + packet[2] as int;
            var fitting := row.paramLen == 0xFFFF || row.paramLen == packet[2];
            && d.commands == c.commands + 1 && d.unknown == c.unknown && d.backpressure == c.backpressure
            && d.invalidPackets == c.invalidPackets + (if whole then 0 else 1)
            && d.invalidParams == c.invalidParams + (if whole && !fitting then 1 else 0)
            && d.handlerCalls == c.handlerCalls + (if Handled(row, packet, refuse) then 1 else 0)
            && d.handlerErrors == c.handlerErrors
                 + if whole && fitting && !row.hasHandler then 1
                   else if Handled(row, packet, refuse)
                           && (|| reply.response != row.response || |reply.ret| > 251 || 6 + |reply.ret| > cap
                               || (row.response != Complete && row.response != Status && row.response != NoResponse))
                   then 1 else 0
  {
    RowIsFound(rows, packet, i);
  }

  lemma CountsWithoutRow(c: Counts, cap: nat, rows: seq<Row>, packet: seq<byte>, refuse: byte, reply: Reply)
    requires cap >= 6
    ensures |packet| < 3 ==>
              (Counted(c, cap, rows, packet, refuse, reply)
               == c.(commands := c.commands + 1, invalidPackets := c.invalidPackets + 1))
    ensures NoRow(rows, packet) ==>
              (Counted(c, cap, rows, packet, refuse, reply)
               == c.(commands := c.commands + 1, unknown := c.unknown + 1))
  {
    hide Lo;
    hide Hi;
    hide Opcode;
    hide OpcodeOnWire;
    if |packet| >= 3 {
      OpcodeOctets(packet);
      FindFirst(rows, Opcode(packet));
    }
  }

  class Dispatcher {
    const rows: seq<Row>
    const event: array<byte>
    var eventLen: nat
    var eventPending: bool
    var counts: Counts

    ghost predicate Valid()
      reads this
    {
      event.Length >= 6 && eventLen <= event.Length
    }

    /** The event waiting to go out. */
    ghost function Pending(): Option<seq<byte>>
      reads this, event
      requires Valid()
    {
      if eventPending then Some(event[..eventLen]) else None
    }

    constructor (table: seq<Row>, buffer: array<byte>)
      requires buffer.Length >= 6
      ensures Valid() && rows == table && event == buffer
      ensures Pending() == None && counts == Counts(0, 0, 0, 0, 0, 0, 0)
    {
      rows, event, eventLen, eventPending := table, buffer, 0, false;
      counts := Counts(0, 0, 0, 0, 0, 0, 0);
    }

    method FindEntry(opcode: u16) returns (entry: Option<Row>)
      ensures entry == Find(rows, opcode)
    {
      for i := 0 to |rows|
        invariant forall j :: 0 <= j < i ==> rows[j].opcode != opcode
      {
        if rows[i].opcode == opcode {
          FindSkips(rows, opcode, i);
          return Some(rows[i]);
        }
      }
      FindFirst(rows, opcode);
      return None;
    }

    /** Zero `n` octets of the return area from `from` on. */
    method ZeroFill(from: nat, n: nat)
      requires from + n <= event.Length
      modifies event
      ensures event[..from + n] == old(event[..from]) + Zeros(n)
    {
      for k := 0 to n
        invariant event[..from + k] == old(event[..from]) + Zeros(k)
      {
        event[from + k] := 0;
        assert event[..from + k + 1] == event[..from + k] + [0];
      }
    }

    method BuildComplete(opcode: u16, status: byte, ghost ret: seq<byte>, returnLen: nat)
      requires Valid() && Fits(event.Length, returnLen) && event[6..6 + returnLen] == ret
      modifies this`eventLen, this`eventPending, event
      ensures Valid() && Pending() == Some(CompleteEvent(opcode, status, ret))
    {
      event[0], event[1], event[2] := 0x0E, 4 + returnLen, 1;
      event[3], event[4], event[5] := Lo(opcode), Hi(opcode), status;
      eventLen, eventPending := 6 + returnLen, true;
      assert event[6..6 + returnLen] == ret;
      assert event[..6] == [0x0E, 4 + returnLen, 1, Lo(opcode), Hi(opcode), status];
      assert event[..eventLen] == event[..6] + event[6..eventLen];
    }

    method BuildStatus(opcode: u16, status: byte)
      requires Valid()
      modifies this`eventLen, this`eventPending, event
      ensures Valid() && Pending() == Some(StatusEvent(opcode, status))
    {
      event[0], event[1], event[2] := 0x0F, 4, status;
      event[3], event[4], event[5] := 1, Lo(opcode), Hi(opcode);
      eventLen, eventPending := 6, true;
      assert event[..6] == StatusEvent(opcode, status);
    }

    method BuildError(row: Row, opcode: u16, status: byte)
      requires Valid()
      modifies this`eventLen, this`eventPending, event
      ensures Valid() && Pending() == Some(ErrorEvent(event.Length, row, opcode, status))
    {
      if row.response == Status {
        BuildStatus(opcode, status);
      } else {
        var n := if Fits(event.Length, row.returnLen) then row.returnLen else 0;
        ghost var head := event[..6];
        ZeroFill(6, n);
        assert event[6..6 + n] == event[..6 + n][6..] == Zeros(n);
        BuildComplete(opcode, status, Zeros(n), n);
        assert n == 0 ==> Zeros(n) == [];
      }
    }

    /** The handler writes its return octets in place, as far as the room it was given. */
    method RunHandler(reply: Reply) returns (n: nat)
      requires Valid()
      modifies event
      ensures n == |reply.ret|
      ensures n <= event.Length - 6 ==> event[6..6 + n] == reply.ret
    {
      n := |reply.ret|;
      var room := if n <= event.Length - 6 then n else event.Length - 6;
      for k := 0 to room
        invariant event[6..6 + k] == reply.ret[..k]
      {
        event[6 + k] := reply.ret[k];
        assert event[6..6 + k + 1] == event[6..6 + k] + [reply.ret[k]];
      }
      assert reply.ret[..n] == reply.ret;
    }

    method Respond(row: Row, opcode: u16, reply: Reply)
      requires Valid() && !eventPending
      modifies this`eventLen, this`eventPending, this`counts, event
      ensures Valid() && Pending() == HandlerEvent(event.Length, row, opcode, reply)
      ensures counts == if reply.response != row.response || !Fits(event.Length, |reply.ret|) || row.response.Unlisted?
                        then old(counts).(handlerErrors := old(counts).handlerErrors + 1) else old(counts)
    {
      var n := RunHandler(reply);
      if reply.response != row.response {
        counts := counts.(handlerErrors := counts.handlerErrors + 1);
        BuildError(row, opcode, UNSPECIFIED);
        return;
      }
      if !Fits(event.Length, n) {
        counts := counts.(handlerErrors := counts.handlerErrors + 1);
        BuildError(row, opcode, MEMORY_EXCEEDED);
        return;
      }
      match reply.response
      case Complete =>
        if n < row.returnLen && Fits(event.Length, row.returnLen) {
          ZeroFill(6 + n, row.returnLen - n);
          PaddedArea(event[..6 + row.returnLen], n, reply.ret);
          n := row.returnLen;
          assert event[..6 + n][6..] == event[6..6 + n];
        }
        BuildComplete(opcode, reply.status, Padded(event.Length, row, reply.ret), n);
      case Status =>
        BuildStatus(opcode, reply.status);
      case NoResponse =>
        eventLen, eventPending := 0, false;
      case Unlisted(_) =>
        counts := counts.(handlerErrors := counts.handlerErrors + 1);
        BuildComplete(opcode, UNKNOWN_COMMAND, [], 0);
    }

    /** A command. Refused while an event waits: the caller keeps it and offers it again. */
    method Put(packet: seq<byte>, refuse: byte, reply: Reply) returns (accepted: bool)
      requires Valid()
      modifies this`eventLen, this`eventPending, this`counts, event
      ensures Valid() && accepted == !old(eventPending)
      ensures accepted ==> Pending() == Answer(event.Length, rows, packet, refuse, reply)
      ensures accepted ==> counts == Counted(old(counts), event.Length, rows, packet, refuse, reply)
      ensures !accepted ==> Pending() == old(Pending())
      ensures !accepted ==> counts == old(counts).(backpressure := old(counts).backpressure + 1)
    {
      hide Find;
      if eventPending {
        counts := counts.(backpressure := counts.backpressure + 1);
        return false;
      }
      accepted := true;
      counts := counts.(commands := counts.commands + 1);
      if |packet| < 3 {
        counts := counts.(invalidPackets := counts.invalidPackets + 1);
        return;
      }
      var opcode := Opcode(packet);
      var entry := FindEntry(opcode);
      if entry.None? {
        counts := counts.(unknown := counts.unknown + 1);
        BuildComplete(opcode, UNKNOWN_COMMAND, [], 0);
        return;
      }
      var row := entry.value;
      if |packet| != 3 + ParamLen(packet) {
        counts := counts.(invalidPackets := counts.invalidPackets + 1);
        BuildError(row, opcode, INVALID_PARAMETERS);
        return;
      }
      if row.paramLen != VARIABLE && row.paramLen != ParamLen(packet) {
        counts := counts.(invalidParams := counts.invalidParams + 1);
        BuildError(row, opcode, INVALID_PARAMETERS);
        return;
      }
      if !row.hasHandler {
        counts := counts.(handlerErrors := counts.handlerErrors + 1);
        BuildError(row, opcode, UNKNOWN_COMMAND);
        return;
      }
      if refuse != SUCCESS {
        BuildError(row, opcode, refuse);
        return;
      }
      counts := counts.(handlerCalls := counts.handlerCalls + 1);
      Respond(row, opcode, reply);
    }

    /** Hand the waiting event over, whole, or leave it where it is. */
    method Get(capacity: nat) returns (out: Option<seq<byte>>)
      requires Valid()
      modifies this`eventLen, this`eventPending
      ensures Valid() && counts == old(counts)
      ensures out == if old(Pending()).Some? && |old(Pending()).value| <= capacity then old(Pending()) else None
      ensures Pending() == if out.Some? then None else old(Pending())
    {
      if !eventPending || capacity < eventLen {
        return None;
      }
      out := Some(event[..eventLen]);
      eventLen, eventPending := 0, false;
    }

    /** The startup No Operation event: a credit and opcode zero, no status octet. */
    method QueueNop()
      requires Valid()
      modifies this`eventLen, this`eventPending, event
      ensures Valid() && Pending() == Some(Nop()) && counts == old(counts)
    {
      event[0], event[1], event[2], event[3], event[4] := 0x0E, 3, 1, 0, 0;
      eventLen, eventPending := 5, true;
      assert event[..5] == Nop();
    }
  }

  lemma PaddedArea(area: seq<byte>, n: nat, ret: seq<byte>)
    requires 6 + n <= |area| && area[6..6 + n] == ret && area[6 + n..] == Zeros(|area| - 6 - n)
    ensures area[6..] == ret + Zeros(|area| - 6 - n)
  {
  }

  function Nop(): seq<byte> {
    [0x0E, 3, 1, 0, 0]
  }

  lemma NopIsSelfDelimiting()
    ensures Nop() == [0x0E, 0x03, 0x01, 0x00, 0x00]
    ensures H4.SelfDelimiting(H4.Packet(H4.Event, Nop())) && Nop()[2] == 1 && Le16(Nop()[3], Nop()[4]) == 0
  {
  }
}
