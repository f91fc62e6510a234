/**
 Commands the bridge answers itself: the CRC loopback, the USB snapshot, the vendor
 commands, and the bare status. Every reply is a Command Complete its host can delimit.
 */
module LocalReplies {
  import opened Octets
  import CD = CommandDispatch
  import Crc

  const LOOPBACK: u16 := 0xFFF1
  const USB_SNAPSHOT: u16 := 0xFFF2
  const FIRST_VENDOR: u16 := 0xFFF3
  const LAST_VENDOR: u16 := 0xFFFB
  const NO_ERROR: u16 := 0xFFFF
  const MAX_DATA := 240

  function StatusReply(opcode: u16, status: byte): seq<byte> {
    CD.CompleteEvent(opcode, status, [])
  }

  // ---- PRBS8 ----

  /** x^8 + x^6 + x^5 + x^4 + 1. */
  function PrbsStep(state: bv8): bv8 {
    (state << 1) | (((state >> 7) ^ (state >> 5) ^ (state >> 4) ^ (state >> 3)) & 1)
  }

  /** The `i`-th octet from a seed. */
  function PrbsAt(seed: bv8, i: nat): bv8 {
    if i == 0 then seed else PrbsStep(PrbsAt(seed, i - 1))
  }

  lemma StepIsInjective(a: bv8, b: bv8)
    ensures PrbsStep(a) == PrbsStep(b) ==> a == b
    ensures PrbsStep(a) == 0 <==> a == 0
  {
  }

  /** Different seeds give sequences that differ in every octet: a reply cannot pass for another seed's. */
  lemma {:induction false} SeedsNeverMeet(a: bv8, b: bv8, i: nat)
    requires a != b
    ensures PrbsAt(a, i) != PrbsAt(b, i)
  {
    if i > 0 {
      SeedsNeverMeet(a, b, i - 1);
      StepIsInjective(PrbsAt(a, i - 1), PrbsAt(b, i - 1));
    }
  }

  /** The top bit, the one that leaves the register. */
  function Top(state: bv8): bv8 {
    state >> 7
  }

  lemma {:induction false} PrbsAdds(seed: bv8, i: nat, n: nat)
    ensures PrbsAt(seed, i + n) == PrbsAt(PrbsAt(seed, i), n)
  {
    if n > 0 {
      PrbsAdds(seed, i, n - 1);
    }
  }

  /** Eight steps in a row: what leaves last is fed back from what left first, third, fourth and fifth. */
  lemma EightSteps(s: bv8)
    ensures var s1 := PrbsStep(s);
            var s2 := PrbsStep(s1);
            var s3 := PrbsStep(s2);
            var s4 := PrbsStep(s3);
            Top(PrbsStep(PrbsStep(PrbsStep(PrbsStep(s4))))) == Top(s) ^ Top(s2) ^ Top(s3) ^ Top(s4)
  {
  }

  lemma EightAt(s: bv8)
    ensures PrbsAt(s, 2) == PrbsStep(PrbsStep(s)) && PrbsAt(s, 3) == PrbsStep(PrbsAt(s, 2))
    ensures PrbsAt(s, 4) == PrbsStep(PrbsAt(s, 3)) && PrbsAt(s, 5) == PrbsStep(PrbsAt(s, 4))
    ensures PrbsAt(s, 6) == PrbsStep(PrbsAt(s, 5)) && PrbsAt(s, 7) == PrbsStep(PrbsAt(s, 6))
    ensures PrbsAt(s, 8) == PrbsStep(PrbsAt(s, 7))
  {
    hide PrbsStep;
    assert PrbsAt(s, 0) == s && PrbsAt(s, 1) == PrbsStep(s);
  }

  /**
   The sequence is the one of x^8 + x^6 + x^5 + x^4 + 1: its bits satisfy that recurrence,
   seven of each octet's bits are the octet's before, and it starts with the seed itself.
   */
  lemma PrbsRecurrence(seed: bv8, i: nat)
    ensures PrbsAt(seed, 0) == seed && PrbsAt(seed, i + 1) >> 1 == PrbsAt(seed, i) & 0x7F
    ensures Top(PrbsAt(seed, i + 8))
         == Top(PrbsAt(seed, i)) ^ Top(PrbsAt(seed, i + 2)) ^ Top(PrbsAt(seed, i + 3)) ^ Top(PrbsAt(seed, i + 4))
  {
    var s := PrbsAt(seed, i);
    PrbsAdds(seed, i, 2);
    PrbsAdds(seed, i, 3);
    PrbsAdds(seed, i, 4);
    PrbsAdds(seed, i, 8);
    EightAt(s);
    EightSteps(s);
    ShiftsIn(s);
    hide PrbsStep;
    hide Top;
    assert PrbsAt(seed, i + 1) == PrbsStep(s);
  }

  lemma ShiftsIn(s: bv8)
    ensures PrbsStep(s) >> 1 == s & 0x7F
  {
  }

  function Bits(b: byte): bv8 {
    b as bv8
  }

  predicate Matches(payload: seq<byte>, seed: byte, n: nat)
    requires n <= |payload|
  {
    forall i :: 0 <= i < n ==> Bits(payload[i]) == PrbsAt(Bits(seed), i)
  }

  /** Where a payload first leaves its sequence. */
  function FirstBad(payload: seq<byte>, seed: byte, from: nat): (bad: nat)
    requires from <= |payload|
    ensures from <= bad <= |payload|
    ensures forall i :: from <= i < bad ==> Bits(payload[i]) == PrbsAt(Bits(seed), i)
    ensures bad < |payload| ==> Bits(payload[bad]) != PrbsAt(Bits(seed), bad)
    decreases |payload| - from
  {
    if from == |payload| || Bits(payload[from]) != PrbsAt(Bits(seed), from) then from
    else FirstBad(payload, seed, from + 1)
  }

  /** The two bits the loopback reports, and the index of the first bad octet. */
  function PrbsFlags(payload: seq<byte>, seed: byte): byte {
    (if seed == 0 then 2 else 0) + if FirstBad(payload, seed, 0) < |payload| then 1 else 0
  }

  function BadIndex(payload: seq<byte>, seed: byte): u16
    requires |payload| <= MAX_DATA
  {
    if FirstBad(payload, seed, 0) < |payload| then FirstBad(payload, seed, 0) else NO_ERROR
  }

  lemma FirstBadIs(payload: seq<byte>, seed: byte, n: nat)
    requires n <= |payload| && Matches(payload, seed, n)
    requires n < |payload| ==> Bits(payload[n]) != PrbsAt(Bits(seed), n)
    ensures FirstBad(payload, seed, 0) == n
  {
  }

  /** Clean means exactly the sequence of a usable seed. */
  lemma CleanIff(payload: seq<byte>, seed: byte)
    ensures PrbsFlags(payload, seed) == 0 <==> seed != 0 && Matches(payload, seed, |payload|)
  {
    if Matches(payload, seed, |payload|) {
      FirstBadIs(payload, seed, |payload|);
    }
  }

  /**
   What is reported: bit 0 says that some octet is off the sequence, and then the index is
   that of the first, 0xFFFF otherwise; bit 1 says that the seed is the unusable zero.
   */
  lemma FlagsMean(payload: seq<byte>, seed: byte)
    requires |payload| <= MAX_DATA
    ensures var (flags, bad) := (PrbsFlags(payload, seed), BadIndex(payload, seed));
            && flags <= 3 && (flags >= 2 <==> seed == 0)
            && (flags % 2 == 1 <==> !Matches(payload, seed, |payload|))
            && (bad == 0xFFFF <==> Matches(payload, seed, |payload|))
            && (bad != 0xFFFF ==>
                  && bad < |payload| && Matches(payload, seed, bad)
                  && Bits(payload[bad]) != PrbsAt(Bits(seed), bad))
  {
    if Matches(payload, seed, |payload|) {
      FirstBadIs(payload, seed, |payload|);
    }
  }

  method CheckPrbs(payload: seq<byte>, seed: byte) returns (flags: byte, bad: u16)
    requires |payload| <= MAX_DATA
    ensures flags == PrbsFlags(payload, seed) && bad == BadIndex(payload, seed)
  {
    hide FirstBad;
    hide PrbsStep;
    flags, bad := 0, NO_ERROR;
    var state := Bits(seed);
    if seed == 0 {
      flags := 2;
    }
    for i := 0 to |payload|
      invariant state == PrbsAt(Bits(seed), i)
      invariant bad == NO_ERROR ==> Matches(payload, seed, i) && flags == if seed == 0 then 2 else 0
      invariant bad != NO_ERROR ==>
                  && bad < i && FirstBad(payload, seed, 0) == bad
                  && flags == 1 + if seed == 0 then 2 else 0
    {
      if Bits(payload[i]) != state && bad == NO_ERROR {
        FirstBadIs(payload, seed, i);
        flags, bad := flags + 1, i;
      }
      state := PrbsStep(state);
    }
    if bad == NO_ERROR {
      FirstBadIs(payload, seed, |payload|);
    }
  }

  // ---- Loopback ----

  function AllBits(data: seq<byte>): seq<bv8> {
    seq(|data|, i requires 0 <= i < |data| => Bits(data[i]))
  }

  lemma AllBitsAre(data: seq<byte>)
    ensures |AllBits(data)| == |data|
    ensures forall i :: 0 <= i < |data| ==> AllBits(data)[i] == data[i] as bv8
  {
  }

  function Low(word: bv32, k: nat): bv8
    requires k < 4
  {
    ((if k == 0 then word else if k == 1 then word >> 8 else if k == 2 then word >> 16 else word >> 24) & 0xFF) as bv8
  }

  function Number(x: bv8): byte {
    x as byte
  }

  function OctetOf(word: bv32, k: nat): byte
    requires k < 4
  {
    Number(Low(word, k))
  }

  function Le32(word: bv32): seq<byte> {
    [OctetOf(word, 0), OctetOf(word, 1), OctetOf(word, 2), OctetOf(word, 3)]
  }

  function LoopbackReturn(packet: seq<byte>): seq<byte>
    requires 6 <= |packet| <= 6 + MAX_DATA
  {
    var payload := packet[6..];
    var bad := BadIndex(payload, packet[5]);
    [packet[3], packet[4], packet[5], PrbsFlags(payload, packet[5]), Lo(bad), Hi(bad)]
    + Le32(Crc.Crc32(AllBits(payload))) + payload
  }

  predicate LoopbackShaped(packet: seq<byte>)
    requires |packet| >= 3
  {
    |packet| == 3 + CD.ParamLen(packet) && 3 <= CD.ParamLen(packet) <= 3 + MAX_DATA
  }

  function Loopback(cap: nat, packet: seq<byte>): seq<byte>
    requires |packet| >= 3
  {
    if !LoopbackShaped(packet) then StatusReply(LOOPBACK, CD.INVALID_PARAMETERS)
    else if 16 + (|packet| - 6) > cap then StatusReply(LOOPBACK, CD.MEMORY_EXCEEDED)
    else CD.CompleteEvent(LOOPBACK, CD.SUCCESS, LoopbackReturn(packet))
  }

  method LoopbackEvent(cap: nat, packet: seq<byte>) returns (event: seq<byte>)
    requires |packet| >= 3
    ensures event == Loopback(cap, packet)
  {
    hide PrbsFlags;
    hide BadIndex;
    hide Crc.Crc32;
    hide OctetOf;
    if !LoopbackShaped(packet) {
      return StatusReply(LOOPBACK, CD.INVALID_PARAMETERS);
    }
    if 16 + (|packet| - 6) > cap {
      return StatusReply(LOOPBACK, CD.MEMORY_EXCEEDED);
    }
    var payload := packet[6..];
    var flags, bad := CheckPrbs(payload, packet[5]);
    var crc := Crc.ComputeCrc32(AllBits(payload));
    return CD.CompleteEvent(LOOPBACK, CD.SUCCESS,
      [packet[3], packet[4], packet[5], flags, Lo(bad), Hi(bad)] + Le32(crc) + payload);
  }

  /** The echo: sequence, seed and payload come back unchanged, at the event's two ends. */
  lemma LoopbackEchoes(cap: nat, packet: seq<byte>)
    requires |packet| >= 3 && LoopbackShaped(packet) && 10 + |packet| <= cap
    ensures var e := Loopback(cap, packet);
            && |e| == 10 + |packet| && e[6..9] == packet[3..6] && e[16..] == packet[6..]
            && e[12..16] == Le32(Crc.Crc32(AllBits(packet[6..])))
  {
    hide Crc.Crc32;
    hide PrbsFlags;
    hide BadIndex;
    hide OctetOf;
    var payload := packet[6..];
    var bad := BadIndex(payload, packet[5]);
    var head := [packet[3], packet[4], packet[5], PrbsFlags(payload, packet[5]), Lo(bad), Hi(bad)];
    var crc := Le32(Crc.Crc32(AllBits(payload)));
    Spliced([0x0E, 4 + |LoopbackReturn(packet)|, 1, Lo(LOOPBACK), Hi(LOOPBACK), CD.SUCCESS], head, crc, payload);
    assert head[..3] == packet[3..6];
  }

  lemma Spliced(a: seq<byte>, b: seq<byte>, c: seq<byte>, d: seq<byte>)
    requires |a| == 6 && |b| == 6 && |c| == 4
    ensures var e := a + (b + c + d);
            |e| == 16 + |d| && e[6..9] == b[..3] && e[12..16] == c && e[16..] == d
  {
  }

  lemma NumberInjective(x: bv8, y: bv8)
    requires Number(x) == Number(y)
    ensures x == y
  {
    assert ((x as int) as bv8) == x;
    assert ((y as int) as bv8) == y;
  }

  lemma WordOfOctets(a: bv32, b: bv32)
    requires Low(a, 0) == Low(b, 0) && Low(a, 1) == Low(b, 1) && Low(a, 2) == Low(b, 2) && Low(a, 3) == Low(b, 3)
    ensures a == b
  {
  }

  /** The four octets on the wire are the whole checksum. */
  lemma Le32Injective(a: bv32, b: bv32)
    requires Le32(a) == Le32(b)
    ensures a == b
  {
    hide Number;
    hide Low;
    assert forall k :: 0 <= k < 4 ==> Le32(a)[k] == Le32(b)[k];
    NumberInjective(Low(a, 0), Low(b, 0));
    NumberInjective(Low(a, 1), Low(b, 1));
    NumberInjective(Low(a, 2), Low(b, 2));
    NumberInjective(Low(a, 3), Low(b, 3));
    WordOfOctets(a, b);
  }

  /**
   Damage to the echo confined to four consecutive payload octets is always visible: the
   checksum that comes back with the command is not the one of the damaged payload.
   */
  lemma EchoDamageIsSeen(head: seq<bv8>, v: seq<bv8>, w: seq<bv8>, tail: seq<bv8>)
    requires |v| == |w| <= 4 && v != w
    ensures Le32(Crc.Crc32(head + v + tail)) != Le32(Crc.Crc32(head + w + tail))
  {
    hide Crc.Crc32;
    hide Le32;
    Crc.BurstIsDetected(head, v, w, tail);
    var a, b := Crc.Crc32(head + v + tail), Crc.Crc32(head + w + tail);
    if Le32(a) == Le32(b) {
      Le32Injective(a, b);
    }
  }

  // ---- USB snapshot and vendor commands ----

  /** `snapshot` is what the platform wrote, as long as it says it is. */
  function UsbReply(cap: nat, packet: seq<byte>, snapshot: seq<byte>): seq<byte>
    requires |packet| >= 3 && cap >= 6
  {
    if |packet| != 3 || packet[2] != 0 then StatusReply(USB_SNAPSHOT, CD.INVALID_PARAMETERS)
    else if cap <= 6 then StatusReply(USB_SNAPSHOT, CD.MEMORY_EXCEEDED)
    else if snapshot == [] then StatusReply(USB_SNAPSHOT, CD.UNKNOWN_COMMAND)
    else if !CD.Fits(cap, |snapshot|) then StatusReply(USB_SNAPSHOT, CD.MEMORY_EXCEEDED)
    else CD.CompleteEvent(USB_SNAPSHOT, CD.SUCCESS, snapshot)
  }

  predicate IsVendor(opcode: u16) {
    FIRST_VENDOR <= opcode <= LAST_VENDOR
  }

  /** What a vendor handler leaves: its status, and return octets that never pass the limit. */
  datatype VendorAnswer = VendorAnswer(status: byte, ret: seq<byte>)

  function VendorReply(cap: nat, packet: seq<byte>, answer: VendorAnswer): seq<byte>
    requires |packet| >= 3 && IsVendor(CD.Opcode(packet)) && |answer.ret| <= CD.MAX_RETURN
  {
    if cap < 6 + CD.MAX_RETURN then StatusReply(CD.Opcode(packet), CD.MEMORY_EXCEEDED)
    else if |packet| != 3 + CD.ParamLen(packet) then StatusReply(CD.Opcode(packet), CD.INVALID_PARAMETERS)
    else CD.CompleteEvent(CD.Opcode(packet), answer.status, if answer.status == CD.SUCCESS then answer.ret else [])
  }

  // ---- Which commands are answered here ----

  const ALL_LOCAL_FEATURES: u16 := 0x2087
  const ALL_REMOTE_FEATURES: u16 := 0x2088
  const HOST_FEATURE_V2: u16 := 0x2097
  const CORE_6_0: byte := 0x0E

  /** `core` is the release's target Core version; zero claims what the controller claims. */
  predicate AllowedByCore(core: byte, opcode: u16) {
    core != 0 && core < CORE_6_0
    ==> opcode != ALL_LOCAL_FEATURES && opcode != ALL_REMOTE_FEATURES && opcode != HOST_FEATURE_V2
  }

  predicate IsLocal(core: byte, packet: seq<byte>) {
    && |packet| >= 3
    && var opcode := CD.Opcode(packet);
       opcode == USB_SNAPSHOT || opcode == LOOPBACK || IsVendor(opcode) || !AllowedByCore(core, opcode)
  }

  function LocalReply(core: byte, cap: nat, packet: seq<byte>, snapshot: seq<byte>, vendor: VendorAnswer): seq<byte>
    requires IsLocal(core, packet) && cap >= 6 && |vendor.ret| <= CD.MAX_RETURN
  {
    var opcode := CD.Opcode(packet);
    if opcode == USB_SNAPSHOT then UsbReply(cap, packet, snapshot)
    else if opcode == LOOPBACK then Loopback(cap, packet)
    else if IsVendor(opcode) then VendorReply(cap, packet, vendor)
    else StatusReply(opcode, CD.UNKNOWN_COMMAND)
  }

  /** Every local reply fits the slot, names the command it answers and delimits itself. */
  lemma LocalReplyIsShaped(core: byte, cap: nat, packet: seq<byte>, snapshot: seq<byte>, vendor: VendorAnswer)
    requires IsLocal(core, packet) && cap >= 6 && |vendor.ret| <= CD.MAX_RETURN
    ensures var e := LocalReply(core, cap, packet, snapshot, vendor);
            |e| <= cap && e[0] == 0x0E && CD.IsCommandEvent(e, CD.Opcode(packet))
  {
    hide LoopbackReturn;
    hide CD.IsCommandEvent;
    var opcode := CD.Opcode(packet);
    StatusIsShaped(cap, opcode, CD.UNKNOWN_COMMAND);
    StatusIsShaped(cap, opcode, CD.MEMORY_EXCEEDED);
    StatusIsShaped(cap, opcode, CD.INVALID_PARAMETERS);
    if opcode == USB_SNAPSHOT {
      if CD.Fits(cap, |snapshot|) {
        ReplyIsShaped(cap, opcode, CD.SUCCESS, snapshot);
      }
    } else if opcode == LOOPBACK {
      if LoopbackShaped(packet) && 10 + |packet| <= cap {
        LoopbackLength(packet);
        ReplyIsShaped(cap, opcode, CD.SUCCESS, LoopbackReturn(packet));
      }
    } else if IsVendor(opcode) && cap >= 6 + CD.MAX_RETURN {
      ReplyIsShaped(cap, opcode, vendor.status, []);
      ReplyIsShaped(cap, opcode, vendor.status, vendor.ret);
    }
  }

  lemma StatusIsShaped(cap: nat, opcode: u16, status: byte)
    requires cap >= 6
    ensures var e := StatusReply(opcode, status);
            |e| <= cap && e[0] == 0x0E && CD.IsCommandEvent(e, opcode)
  {
    ReplyIsShaped(cap, opcode, status, []);
  }

  lemma ReplyIsShaped(cap: nat, opcode: u16, status: byte, ret: seq<byte>)
    requires cap >= 6 && CD.Fits(cap, |ret|)
    ensures var e := CD.CompleteEvent(opcode, status, ret);
            |e| <= cap && e[0] == 0x0E && CD.IsCommandEvent(e, opcode)
  {
    CD.BuiltEvents(opcode, status, ret);
  }

  lemma LoopbackLength(packet: seq<byte>)
    requires 6 <= |packet| <= 6 + MAX_DATA
    ensures |LoopbackReturn(packet)| == |packet| + 4
  {
  }

  // ---- The replies, octet by octet ----

  /** The commands answered here: FFF1 to FFFB, low octet first, and three that an older release does not have. */
  lemma LocalCommands(core: byte, packet: seq<byte>)
    ensures IsLocal(core, packet) <==>
              && |packet| >= 3
              && (|| (packet[1] == 0xFF && 0xF1 <= packet[0] <= 0xFB)
                  || (0 < core < 0x0E && packet[1] == 0x20 && packet[0] in {0x87, 0x88, 0x97}))
  {
    if |packet| >= 3 {
      VendorRange(packet);
      CD.OpcodeIs(packet, 0x87, 0x20);
      CD.OpcodeIs(packet, 0x88, 0x20);
      CD.OpcodeIs(packet, 0x97, 0x20);
      hide CD.Opcode;
      FeatureOctets();
    }
  }

  lemma FeatureOctets()
    ensures Le16(0x87, 0x20) == 0x2087 && Le16(0x88, 0x20) == 0x2088 && Le16(0x97, 0x20) == 0x2097
  {
  }

  lemma VendorRange(packet: seq<byte>)
    requires |packet| >= 3
    ensures 0xFFF1 <= CD.Opcode(packet) <= 0xFFFB <==> packet[1] == 0xFF && 0xF1 <= packet[0] <= 0xFB
    ensures packet[1] == 0xFF ==> CD.Opcode(packet) == 0xFF00 + packet[0] as int
  {
    var lo, hi := packet[0], packet[1];
    assert Le16(lo, hi) == (lo as int) + 0x100 * (hi as int);
  }

  /** A bare answer: Command Complete with a status and nothing behind it. */
  function Bare(packet: seq<byte>, status: byte): seq<byte>
    requires |packet| >= 3
  {
    [0x0E, 4, 1, packet[0], packet[1], status]
  }

  lemma BareGoesOut(packet: seq<byte>, status: byte)
    requires |packet| >= 3
    ensures StatusReply(CD.Opcode(packet), status) == Bare(packet, status)
  {
    CD.OpcodeOctets(packet);
    CD.BareEvent(CD.Opcode(packet), status);
  }

  /**
   A vendor command: without room for the longest return Memory Capacity Exceeded, with a
   length octet that is wrong Invalid Parameters, and otherwise the handler's own status
   with, on success, exactly what it returned.
   */
  lemma VendorOnWire(core: byte, cap: nat, packet: seq<byte>, snapshot: seq<byte>, vendor: VendorAnswer)
    requires cap >= 6 && |vendor.ret| <= CD.MAX_RETURN
    requires |packet| >= 3 && packet[1] == 0xFF && 0xF3 <= packet[0] <= 0xFB
    ensures IsLocal(core, packet)
    ensures LocalReply(core, cap, packet, snapshot, vendor)
         == if cap < 257 then Bare(packet, 0x07)
            else if |packet| != 3 + packet[2] as int then Bare(packet, 0x12)
            else if vendor.status != 0 then Bare(packet, vendor.status)
            else [0x0E, 4 + |vendor.ret|, 1, packet[0], packet[1], 0x00] + vendor.ret
  {
    hide Lo;
    hide Hi;
    VendorRange(packet);
    CD.OpcodeOctets(packet);
    BareGoesOut(packet, 0x07);
    BareGoesOut(packet, 0x12);
    BareGoesOut(packet, vendor.status);
    hide CD.Opcode;
    hide CD.OpcodeOnWire;
  }

  /** The USB snapshot: it takes no parameters, is Unknown where there is none, and is returned whole or not at all. */
  lemma UsbOnWire(core: byte, cap: nat, packet: seq<byte>, snapshot: seq<byte>, vendor: VendorAnswer)
    requires cap >= 6 && |vendor.ret| <= CD.MAX_RETURN
    requires |packet| >= 3 && packet[1] == 0xFF && packet[0] == 0xF2
    ensures IsLocal(core, packet)
    ensures LocalReply(core, cap, packet, snapshot, vendor)
         == if |packet| != 3 || packet[2] != 0 then Bare(packet, 0x12)
            else if cap == 6 then Bare(packet, 0x07)
            else if snapshot == [] then Bare(packet, 0x01)
            else if |snapshot| > 251 || 6 + |snapshot| > cap then Bare(packet, 0x07)
            else [0x0E, 4 + |snapshot|, 1, 0xF2, 0xFF, 0x00] + snapshot
  {
    hide Lo;
    hide Hi;
    VendorRange(packet);
    CD.OpcodeOctets(packet);
    BareGoesOut(packet, 0x07);
    BareGoesOut(packet, 0x12);
    BareGoesOut(packet, 0x01);
    hide CD.Opcode;
    hide CD.OpcodeOnWire;
  }

  /** The loopback's refusals, and a command the release does not have. */
  lemma RefusedOnWire(core: byte, cap: nat, packet: seq<byte>, snapshot: seq<byte>, vendor: VendorAnswer)
    requires cap >= 6 && |vendor.ret| <= CD.MAX_RETURN && IsLocal(core, packet)
    ensures packet[1] == 0xFF && packet[0] == 0xF1 ==>
              (LocalReply(core, cap, packet, snapshot, vendor)
               == if |packet| != 3 + packet[2] as int || packet[2] < 3 || packet[2] > 243 then Bare(packet, 0x12)
                  else if 10 + |packet| > cap then Bare(packet, 0x07)
                  else Loopback(cap, packet))
    ensures packet[1] != 0xFF ==> LocalReply(core, cap, packet, snapshot, vendor) == Bare(packet, 0x01)
  {
    hide Lo;
    hide Hi;
    LocalCommands(core, packet);
    VendorRange(packet);
    CD.OpcodeOctets(packet);
    BareGoesOut(packet, 0x07);
    BareGoesOut(packet, 0x12);
    BareGoesOut(packet, 0x01);
    hide CD.Opcode;
    hide CD.OpcodeOnWire;
    hide LoopbackReturn;
  }

  /**
   The loopback's answer by its places: header, the sequence number and seed echoed, what was
   wrong, where, the checksum low octet first, and the payload.
   */
  lemma LoopbackOnWire(cap: nat, packet: seq<byte>)
    requires |packet| >= 6 && |packet| == 3 + packet[2] as int && packet[2] <= 243 && 10 + |packet| <= cap
    ensures var (e, payload) := (Loopback(cap, packet), packet[6..]);
            && |e| == 10 + |packet| && e[..6] == [0x0E, 8 + |packet|, 1, 0xF1, 0xFF, 0x00]
            && e[6..9] == packet[3..6] && e[16..] == payload
            && e[9] == PrbsFlags(payload, packet[5])
            && (e[10] as int) + 0x100 * (e[11] as int) == BadIndex(payload, packet[5])
            && e[12..16] == Le32(Crc.Crc32(AllBits(payload)))
  {
    hide Crc.Crc32;
    hide PrbsFlags;
    hide BadIndex;
    hide OctetOf;
    hide Lo;
    hide Hi;
    LoopbackEchoes(cap, packet);
    LoopbackOctets();
    var payload := packet[6..];
    var bad := BadIndex(payload, packet[5]);
    var e := Loopback(cap, packet);
    assert e == [0x0E, 4 + |LoopbackReturn(packet)|, 1, 0xF1, 0xFF, 0x00] + LoopbackReturn(packet);
    assert e[9] == LoopbackReturn(packet)[3] && e[10] == LoopbackReturn(packet)[4];
    assert e[11] == LoopbackReturn(packet)[5];
    Le16RoundTrip(bad, 0, 0);
  }

  lemma LoopbackOctets()
    ensures Lo(LOOPBACK) == 0xF1 && Hi(LOOPBACK) == 0xFF
  {
  }

  /** The four octets are the checksum, low octet first. */
  lemma Le32OnWire(word: bv32)
    ensures Bits(Le32(word)[0]) as bv32 | ((Bits(Le32(word)[1]) as bv32) << 8)
            | ((Bits(Le32(word)[2]) as bv32) << 16) | ((Bits(Le32(word)[3]) as bv32) << 24) == word
  {
    hide Bits;
    hide Number;
    BitsOfNumber(Low(word, 0));
    BitsOfNumber(Low(word, 1));
    BitsOfNumber(Low(word, 2));
    BitsOfNumber(Low(word, 3));
    LowsMakeWord(word);
  }

  lemma BitsOfNumber(x: bv8)
    ensures Bits(Number(x)) == x
  {
  }

  lemma LowsMakeWord(word: bv32)
    ensures Low(word, 0) as bv32 | ((Low(word, 1) as bv32) << 8)
            | ((Low(word, 2) as bv32) << 16) | ((Low(word, 3) as bv32) << 24) == word
  {
  }
}
