/**
 The H:4 UART transport (Core Vol 4 Part A) as a language: which octet streams are
 which packets. `Parse` reads one octet at a time; `OneShot` cuts a whole stream frame
 by frame; `Frame` is what the sender writes. The lemmas say the three agree.
 */
module H4 {
  import opened Octets

  datatype Kind = Command | Acl | Sco | Event | Iso

  datatype Packet = Packet(kind: Kind, body: seq<byte>)

  function Indicator(kind: Kind): byte {
    match kind
    case Command => 1
    case Acl => 2
    case Sco => 3
    case Event => 4
    case Iso => 5
  }

  function KindOf(indicator: byte): Option<Kind> {
    if indicator == 1 then Some(Command)
    else if indicator == 2 then Some(Acl)
    else if indicator == 3 then Some(Sco)
    else if indicator == 4 then Some(Event)
    else if indicator == 5 then Some(Iso)
    else None
  }

  function HeaderLen(kind: Kind): nat {
    match kind
    case Command => 3
    case Sco => 3
    case Acl => 4
    case Iso => 4
    case Event => 2
  }

  /** The length field of a header; an ISO length is 14 bits wide. */
  function PayloadLen(kind: Kind, header: seq<byte>): nat
    requires |header| >= HeaderLen(kind)
  {
    match kind
    case Command => header[2]
    case Sco => header[2]
    case Acl => Le16(header[2], header[3])
    case Event => header[1]
    case Iso => Le16(header[2], header[3]) % 0x4000
  }

  /** Length equals header plus the length field the parser reads. */
  predicate SelfDelimiting(p: Packet) {
    |p.body| >= HeaderLen(p.kind) &&
    |p.body| == HeaderLen(p.kind) + PayloadLen(p.kind, p.body)
  }

  /** Where a parser stands between two octets. A completed packet has left it. */
  datatype State =
    | AtType
    | InHeader(kind: Kind, got: seq<byte>)
    | InPayload(kind: Kind, got: seq<byte>)
    | Dropping(left: nat)

  predicate ValidState(cap: nat, s: State) {
    match s
    case AtType => true
    case InHeader(kind, got) => |got| < HeaderLen(kind)
    case InPayload(kind, got) =>
      HeaderLen(kind) <= |got| < HeaderLen(kind) + PayloadLen(kind, got) <= cap
    case Dropping(left) => left > 0
  }

  datatype Outcome = Outcome(state: State, packets: seq<Packet>, invalid: nat, oversize: nat)

  /** What is decided the moment the last header octet is in. */
  function HeaderDone(cap: nat, kind: Kind, got: seq<byte>): (o: Outcome)
    requires |got| == HeaderLen(kind) && cap >= 4
    ensures ValidState(cap, o.state)
  {
    var payload := PayloadLen(kind, got);
    if |got| + payload > cap then Outcome(Dropping(payload), [], 0, 1)
    else if payload == 0 then Outcome(AtType, [Packet(kind, got)], 0, 0)
    else Outcome(InPayload(kind, got), [], 0, 0)
  }

  function Octet(cap: nat, s: State, b: byte): (o: Outcome)
    requires cap >= 4 && ValidState(cap, s)
    ensures ValidState(cap, o.state)
  {
    match s
    case AtType =>
      (match KindOf(b)
       case None => Outcome(AtType, [], 1, 0)
       case Some(kind) => Outcome(InHeader(kind, []), [], 0, 0))
    case InHeader(kind, got) =>
      var more := got + [b];
      if |more| < HeaderLen(kind) then Outcome(InHeader(kind, more), [], 0, 0)
      else HeaderDone(cap, kind, more)
    case InPayload(kind, got) =>
      var more := got + [b];
      assert PayloadLen(kind, more) == PayloadLen(kind, got);
      if |more| < HeaderLen(kind) + PayloadLen(kind, got)
      then Outcome(InPayload(kind, more), [], 0, 0)
      else Outcome(AtType, [Packet(kind, more)], 0, 0)
    case Dropping(left) =>
      Outcome(if left == 1 then AtType else Dropping(left - 1), [], 0, 0)
  }

  /** First one outcome, then the other from where the first ended. */
  function Then(a: Outcome, b: Outcome): Outcome {
    Outcome(b.state, a.packets + b.packets, a.invalid + b.invalid, a.oversize + b.oversize)
  }

  function Parse(cap: nat, s: State, stream: seq<byte>): (o: Outcome)
    requires cap >= 4 && ValidState(cap, s)
    ensures ValidState(cap, o.state)
    decreases |stream|
  {
    if stream == [] then Outcome(s, [], 0, 0)
    else var o := Octet(cap, s, stream[0]); Then(o, Parse(cap, o.state, stream[1..]))
  }

  lemma ThenAssociative(a: Outcome, b: Outcome, c: Outcome)
    ensures Then(Then(a, b), c) == Then(a, Then(b, c))
  {
    assert (a.packets + b.packets) + c.packets == a.packets + (b.packets + c.packets);
  }

  lemma ThenUnit(a: Outcome, b: Outcome)
    requires a.packets == [] && a.invalid == 0 && a.oversize == 0
    ensures Then(a, b) == b
  {
    assert [] + b.packets == b.packets;
  }

  /** Reading a non-empty stream is reading its first octet, then the rest. */
  lemma ParseCons(cap: nat, s: State, b: byte, rest: seq<byte>)
    requires cap >= 4 && ValidState(cap, s)
    ensures Parse(cap, s, [b] + rest) == Then(Octet(cap, s, b), Parse(cap, Octet(cap, s, b).state, rest))
  {
    assert ([b] + rest)[1..] == rest;
  }

  /** Cutting the stream anywhere changes nothing. */
  lemma {:induction false} ParseConcat(cap: nat, s: State, a: seq<byte>, b: seq<byte>)
    requires cap >= 4 && ValidState(cap, s)
    ensures Parse(cap, s, a + b) == Then(Parse(cap, s, a), Parse(cap, Parse(cap, s, a).state, b))
    decreases |a|
  {
    if a == [] {
      assert a + b == b;
    } else {
      var o := Octet(cap, s, a[0]);
      assert (a + b)[0] == a[0] && (a + b)[1..] == a[1..] + b;
      ParseConcat(cap, o.state, a[1..], b);
      var rest := Parse(cap, o.state, a[1..]);
      ThenAssociative(o, rest, Parse(cap, rest.state, b));
    }
  }

  lemma ParseOctet(cap: nat, s: State, block: seq<byte>)
    requires cap >= 4 && ValidState(cap, s) && |block| == 1
    ensures Parse(cap, s, block) == Octet(cap, s, block[0])
  {
    assert block[1..] == [];
    var o := Octet(cap, s, block[0]);
    assert o.packets + [] == o.packets;
  }

  lemma ParseSplit(cap: nat, s: State, stream: seq<byte>, n: nat)
    requires cap >= 4 && ValidState(cap, s) && n <= |stream|
    ensures Parse(cap, s, stream)
         == Then(Parse(cap, s, stream[..n]), Parse(cap, Parse(cap, s, stream[..n]).state, stream[n..]))
  {
    hide Parse;
    assert stream == stream[..n] + stream[n..];
    ParseConcat(cap, s, stream[..n], stream[n..]);
  }

  /** What a header, or the start of one, amounts to. */
  function HeaderOutcome(cap: nat, kind: Kind, got: seq<byte>): Outcome
    requires cap >= 4 && |got| <= HeaderLen(kind)
  {
    if |got| < HeaderLen(kind) then Outcome(InHeader(kind, got), [], 0, 0)
    else HeaderDone(cap, kind, got)
  }

  /** A block that does not complete the header is only collected. */
  lemma {:induction false} HeaderBlock(cap: nat, kind: Kind, got: seq<byte>, block: seq<byte>)
    requires cap >= 4 && |got| < HeaderLen(kind) && |got| + |block| <= HeaderLen(kind)
    ensures Parse(cap, InHeader(kind, got), block)
         == HeaderOutcome(cap, kind, got + block)
    decreases |block|
  {
    if block == [] {
      assert got + block == got;
    } else {
      var more := got + [block[0]];
      assert got + block == more + block[1..];
      if |more| < HeaderLen(kind) {
        HeaderBlock(cap, kind, more, block[1..]);
      } else {
        assert block[1..] == [] && got + block == more;
      }
    }
  }

  /** What `got`, the start of one frame of `total` octets, amounts to. */
  function FrameOutcome(cap: nat, kind: Kind, got: seq<byte>, total: nat): Outcome {
    if total > cap then
      Outcome(if |got| < total then Dropping(total - |got|) else AtType, [], 0, 1)
    else if |got| < total then Outcome(InPayload(kind, got), [], 0, 0)
    else Outcome(AtType, [Packet(kind, got)], 0, 0)
  }

  /** A payload block is collected, and completes the packet exactly at its declared end. */
  lemma {:induction false} PayloadBlock(cap: nat, kind: Kind, got: seq<byte>, block: seq<byte>)
    requires cap >= 4 && ValidState(cap, InPayload(kind, got))
    requires |got| + |block| <= HeaderLen(kind) + PayloadLen(kind, got)
    ensures Parse(cap, InPayload(kind, got), block)
         == FrameOutcome(cap, kind, got + block, HeaderLen(kind) + PayloadLen(kind, got))
    decreases |block|
  {
    if block == [] {
      assert got + block == got;
    } else {
      var more := got + [block[0]];
      assert got + block == more + block[1..];
      assert PayloadLen(kind, more) == PayloadLen(kind, got);
      if |more| < HeaderLen(kind) + PayloadLen(kind, got) {
        PayloadBlock(cap, kind, more, block[1..]);
      } else {
        assert block[1..] == [] && got + block == more;
      }
    }
  }

  function DropOutcome(left: nat, n: nat): Outcome
    requires n <= left
  {
    Outcome(if n == left then AtType else Dropping(left - n), [], 0, 0)
  }

  /** A dropped block is counted down and leaves no trace. */
  lemma {:induction false} DropBlock(cap: nat, left: nat, block: seq<byte>)
    requires cap >= 4 && 0 < left && |block| <= left
    ensures Parse(cap, Dropping(left), block) == DropOutcome(left, |block|)
    decreases |block|
  {
    if block != [] {
      ParseCons(cap, Dropping(left), block[0], block[1..]);
      assert block == [block[0]] + block[1..];
      if left > 1 {
        DropBlock(cap, left - 1, block[1..]);
      } else {
        assert block[1..] == [];
      }
    }
  }

  /** The first piece of a stream: a whole one, and its length, or a frame as far as it goes. */
  datatype Cut = Whole(piece: Outcome, used: nat) | Partial(soFar: Outcome)

  function FirstCut(cap: nat, s: seq<byte>): (cut: Cut)
    requires cap >= 4 && s != []
    ensures cut.Whole? ==> 0 < cut.used <= |s|
  {
    match KindOf(s[0])
    case None => Whole(Outcome(AtType, [], 1, 0), 1)
    case Some(kind) =>
      var h := HeaderLen(kind);
      if |s| < 1 + h then Partial(Outcome(InHeader(kind, s[1..]), [], 0, 0))
      else
        var total := h + PayloadLen(kind, s[1..1 + h]);
        if |s| < 1 + total then Partial(FrameOutcome(cap, kind, s[1..], total))
        else Whole(FrameOutcome(cap, kind, s[1..1 + total], total), 1 + total)
  }

  /** The whole stream, cut frame by frame: the reference reading. */
  function OneShot(cap: nat, s: seq<byte>): (o: Outcome)
    requires cap >= 4
    decreases |s|
  {
    if s == [] then Outcome(AtType, [], 0, 0)
    else
      match FirstCut(cap, s)
      case Partial(soFar) => soFar
      case Whole(piece, used) => Then(piece, OneShot(cap, s[used..]))
  }

  /** After the indicator, everything up to `n` octets belongs to this one frame. */
  lemma ParseFrame(cap: nat, kind: Kind, header: seq<byte>, rest: seq<byte>)
    requires cap >= 4 && |header| == HeaderLen(kind) && |rest| <= PayloadLen(kind, header)
    ensures Parse(cap, InHeader(kind, []), header + rest)
         == FrameOutcome(cap, kind, header + rest, |header| + PayloadLen(kind, header))
  {
    hide Parse;
    ParseConcat(cap, InHeader(kind, []), header, rest);
    HeaderBlock(cap, kind, [], header);
    assert [] + header == header;
    var payload := PayloadLen(kind, header);
    if |header| + payload > cap {
      DropBlock(cap, payload, rest);
    } else if payload == 0 {
      assert rest == [] && header + rest == header;
    } else {
      PayloadBlock(cap, kind, header, rest);
    }
  }

  /** An indicator followed by no more than its own frame. */
  lemma ParseOneFrame(cap: nat, kind: Kind, header: seq<byte>, rest: seq<byte>)
    requires cap >= 4 && |header| == HeaderLen(kind) && |rest| <= PayloadLen(kind, header)
    ensures Parse(cap, AtType, [Indicator(kind)] + (header + rest))
         == FrameOutcome(cap, kind, header + rest, |header| + PayloadLen(kind, header))
  {
    hide Parse;
    ParseCons(cap, AtType, Indicator(kind), header + rest);
    ParseFrame(cap, kind, header, rest);
    ThenUnit(Octet(cap, AtType, Indicator(kind)), Parse(cap, InHeader(kind, []), header + rest));
  }

  lemma TakeThenSlice<T>(s: seq<T>, n: nat, from: nat, to: nat)
    requires from <= to <= n <= |s|
    ensures s[..n][from..to] == s[from..to]
    ensures to == n ==> s[..n][from..] == s[from..to]
  {
  }

  /** The first piece parses to what the reference says of it. */
  lemma ParseFirstCut(cap: nat, s: seq<byte>)
    requires cap >= 4 && s != []
    ensures FirstCut(cap, s).Partial? ==> Parse(cap, AtType, s) == FirstCut(cap, s).soFar
    ensures FirstCut(cap, s).Whole? ==> FirstCut(cap, s).piece.state == AtType
    ensures FirstCut(cap, s).Whole? ==> Parse(cap, AtType, s[..FirstCut(cap, s).used]) == FirstCut(cap, s).piece
  {
    hide Parse;
    match KindOf(s[0])
    case None =>
      ParseOctet(cap, AtType, s[..1]);
    case Some(kind) =>
      var h := HeaderLen(kind);
      if |s| < 1 + h {
        ParseCutHeader(cap, s, kind);
      } else {
        var total := h + PayloadLen(kind, s[1..1 + h]);
        if |s| < 1 + total {
          ParseCutFrame(cap, s, kind);
        } else {
          TakeThenSlice(s, 1 + total, 1, 1 + h);
          TakeThenSlice(s, 1 + total, 1, 1 + total);
          ParseCutFrame(cap, s[..1 + total], kind);
        }
      }
  }

  lemma ParseCutHeader(cap: nat, s: seq<byte>, kind: Kind)
    requires cap >= 4 && 0 < |s| < 1 + HeaderLen(kind) && s[0] == Indicator(kind)
    ensures Parse(cap, AtType, s) == Outcome(InHeader(kind, s[1..]), [], 0, 0)
  {
    hide Parse;
    hide Then;
    assert s == [s[0]] + s[1..];
    ParseCons(cap, AtType, s[0], s[1..]);
    HeaderBlock(cap, kind, [], s[1..]);
    assert [] + s[1..] == s[1..];
    ThenUnit(Octet(cap, AtType, s[0]), Parse(cap, InHeader(kind, []), s[1..]));
  }

  lemma ParseCutFrame(cap: nat, s: seq<byte>, kind: Kind)
    requires cap >= 4 && 1 + HeaderLen(kind) <= |s| && s[0] == Indicator(kind)
    requires |s| <= 1 + HeaderLen(kind) + PayloadLen(kind, s[1..1 + HeaderLen(kind)])
    ensures Parse(cap, AtType, s)
         == FrameOutcome(cap, kind, s[1..], HeaderLen(kind) + PayloadLen(kind, s[1..1 + HeaderLen(kind)]))
  {
    hide Parse;
    hide FrameOutcome;
    var h := HeaderLen(kind);
    ParseOneFrame(cap, kind, s[1..1 + h], s[1 + h..]);
    assert s[1..1 + h] + s[1 + h..] == s[1..];
    assert s == [s[0]] + s[1..];
  }

  /** Reading octet by octet is reading frame by frame. */
  lemma {:induction false} ParseIsOneShot(cap: nat, s: seq<byte>)
    requires cap >= 4
    ensures Parse(cap, AtType, s) == OneShot(cap, s)
    decreases |s|
  {
    if s == [] {
      return;
    }
    hide Parse;
    hide Then;
    hide FirstCut;
    ParseFirstCut(cap, s);
    var cut := FirstCut(cap, s);
    if cut.Whole? {
      ParseSplit(cap, AtType, s, cut.used);
      ParseIsOneShot(cap, s[cut.used..]);
    }
  }

  // ---- The framing, octet by octet: Core Vol 4 Part A section 2, Part E section 5.4 ----

  /** A command: 01, the opcode, and one octet of length. */
  lemma CommandOnWire(cap: nat, op0: byte, op1: byte, len: byte, data: seq<byte>)
    requires cap >= 4 && |data| == len
    ensures Parse(cap, AtType, [0x01, op0, op1, len] + data)
         == if 3 + |data| <= cap then Outcome(AtType, [Packet(Command, [op0, op1, len] + data)], 0, 0)
            else Outcome(AtType, [], 0, 1)
  {
    hide Parse;
    ParseOneFrame(cap, Command, [op0, op1, len], data);
    assert [0x01] + ([op0, op1, len] + data) == [0x01, op0, op1, len] + data;
  }

  /** ACL data: 02, the handle and flags, and two octets of length, the low one first. */
  lemma AclOnWire(cap: nat, h0: byte, h1: byte, lo: byte, hi: byte, data: seq<byte>)
    requires cap >= 4 && |data| == lo + 0x100 * hi
    ensures Parse(cap, AtType, [0x02, h0, h1, lo, hi] + data)
         == if 4 + |data| <= cap then Outcome(AtType, [Packet(Acl, [h0, h1, lo, hi] + data)], 0, 0)
            else Outcome(AtType, [], 0, 1)
  {
    hide Parse;
    ParseOneFrame(cap, Acl, [h0, h1, lo, hi], data);
    assert [0x02] + ([h0, h1, lo, hi] + data) == [0x02, h0, h1, lo, hi] + data;
  }

  /** Synchronous data: 03, the handle and flags, and one octet of length. */
  lemma ScoOnWire(cap: nat, h0: byte, h1: byte, len: byte, data: seq<byte>)
    requires cap >= 4 && |data| == len
    ensures Parse(cap, AtType, [0x03, h0, h1, len] + data)
         == if 3 + |data| <= cap then Outcome(AtType, [Packet(Sco, [h0, h1, len] + data)], 0, 0)
            else Outcome(AtType, [], 0, 1)
  {
    hide Parse;
    ParseOneFrame(cap, Sco, [h0, h1, len], data);
    assert [0x03] + ([h0, h1, len] + data) == [0x03, h0, h1, len] + data;
  }

  /** An event: 04, its code, and one octet of length. */
  lemma EventOnWire(cap: nat, code: byte, len: byte, data: seq<byte>)
    requires cap >= 4 && |data| == len
    ensures Parse(cap, AtType, [0x04, code, len] + data)
         == if 2 + |data| <= cap then Outcome(AtType, [Packet(Event, [code, len] + data)], 0, 0)
            else Outcome(AtType, [], 0, 1)
  {
    hide Parse;
    ParseOneFrame(cap, Event, [code, len], data);
    assert [0x04] + ([code, len] + data) == [0x04, code, len] + data;
  }

  /** ISO data: 05, the handle and flags, and a length of 14 bits, the low octet first. */
  lemma IsoOnWire(cap: nat, h0: byte, h1: byte, lo: byte, hi: byte, data: seq<byte>)
    requires cap >= 4 && |data| == (lo + 0x100 * hi) % 0x4000
    ensures Parse(cap, AtType, [0x05, h0, h1, lo, hi] + data)
         == if 4 + |data| <= cap then Outcome(AtType, [Packet(Iso, [h0, h1, lo, hi] + data)], 0, 0)
            else Outcome(AtType, [], 0, 1)
  {
    hide Parse;
    ParseOneFrame(cap, Iso, [h0, h1, lo, hi], data);
    assert [0x05] + ([h0, h1, lo, hi] + data) == [0x05, h0, h1, lo, hi] + data;
  }

  /** Anything else between packets is one rejected octet. */
  lemma OtherOnWire(cap: nat, b: byte)
    requires cap >= 4 && (b == 0 || b > 5)
    ensures Parse(cap, AtType, [b]) == Outcome(AtType, [], 1, 0)
  {
    ParseOctet(cap, AtType, [b]);
  }

  /** How many indicators have been rejected by the time the `k`-th packet is complete. */
  function RejectedBefore(cap: nat, s: State, stream: seq<byte>, k: nat): nat
    requires cap >= 4 && ValidState(cap, s)
    decreases |stream|
  {
    if stream == [] then 0
    else
      var o := Octet(cap, s, stream[0]);
      if k < |o.packets| then o.invalid
      else o.invalid + RejectedBefore(cap, o.state, stream[1..], k - |o.packets|)
  }

  /** What comes later does not change it. */
  lemma {:induction false} RejectedConcat(cap: nat, s: State, a: seq<byte>, b: seq<byte>, k: nat)
    requires cap >= 4 && ValidState(cap, s)
    ensures var o := Parse(cap, s, a);
            RejectedBefore(cap, s, a + b, k)
            == if k < |o.packets| then RejectedBefore(cap, s, a, k)
               else o.invalid + RejectedBefore(cap, o.state, b, k - |o.packets|)
    decreases |a|
  {
    if a == [] {
      assert a + b == b;
    } else {
      var o := Octet(cap, s, a[0]);
      assert (a + b)[0] == a[0] && (a + b)[1..] == a[1..] + b;
      if k >= |o.packets| {
        RejectedConcat(cap, o.state, a[1..], b, k - |o.packets|);
      }
    }
  }

  /** The last octet completes a packet. */
  ghost predicate Completes(cap: nat, s: State, taken: seq<byte>)
    requires cap >= 4 && ValidState(cap, s)
  {
    taken != [] && |Parse(cap, s, taken[..|taken| - 1]).packets| < |Parse(cap, s, taken).packets|
  }

  lemma OneOctet(cap: nat, s: State, b: byte)
    requires cap >= 4 && ValidState(cap, s)
    ensures var o := Octet(cap, s, b);
            |o.packets| <= 1 && (o.packets != [] ==> o.invalid == 0 && RejectedBefore(cap, s, [b], 0) == 0)
  {
  }

  /** At the octet that completes a packet, every indicator rejected so far came before it. */
  lemma CompletesRejected(cap: nat, s: State, taken: seq<byte>)
    requires cap >= 4 && ValidState(cap, s) && Completes(cap, s, taken)
    ensures var o := Parse(cap, s, taken);
            o.packets != [] && RejectedBefore(cap, s, taken, |o.packets| - 1) == o.invalid
  {
    hide Parse;
    hide RejectedBefore;
    hide Octet;
    var n := |taken| - 1;
    var before := Parse(cap, s, taken[..n]);
    var last := [taken[n]];
    assert taken == taken[..n] + last;
    ParseConcat(cap, s, taken[..n], last);
    ParseOctet(cap, before.state, last);
    OneOctet(cap, before.state, taken[n]);
    RejectedConcat(cap, s, taken[..n], last, |before.packets|);
  }

  lemma CompletesConcat(cap: nat, s: State, a: seq<byte>, b: seq<byte>)
    requires cap >= 4 && ValidState(cap, s) && Completes(cap, Parse(cap, s, a).state, b)
    ensures Completes(cap, s, a + b)
  {
    hide Parse;
    var n := |b| - 1;
    ParseConcat(cap, s, a, b);
    ParseConcat(cap, s, a, b[..n]);
    assert (a + b)[..|a + b| - 1] == a + b[..n];
  }

  function Frame(p: Packet): seq<byte> {
    [Indicator(p.kind)] + p.body
  }

  function Frames(ps: seq<Packet>): seq<byte> {
    if ps == [] then [] else Frame(ps[0]) + Frames(ps[1..])
  }

  lemma {:induction false} FramesConcat(a: seq<Packet>, b: seq<Packet>)
    ensures Frames(a + b) == Frames(a) + Frames(b)
  {
    if a == [] {
      assert a + b == b;
    } else {
      assert (a + b)[1..] == a[1..] + b;
      FramesConcat(a[1..], b);
    }
  }

  lemma FrameParses(cap: nat, p: Packet)
    requires cap >= 4 && SelfDelimiting(p) && |p.body| <= cap
    ensures Parse(cap, AtType, Frame(p)) == Outcome(AtType, [p], 0, 0)
  {
    hide Parse;
    var h := HeaderLen(p.kind);
    var header := p.body[..h];
    assert PayloadLen(p.kind, header) == PayloadLen(p.kind, p.body);
    assert p.body == header + p.body[h..];
    ParseOneFrame(cap, p.kind, header, p.body[h..]);
  }

  /** Framing then parsing gives back exactly the packets, with no indicator rejected. */
  lemma {:induction false} FramingRoundTrip(cap: nat, ps: seq<Packet>)
    requires cap >= 4 && forall p :: p in ps ==> SelfDelimiting(p) && |p.body| <= cap
    ensures Parse(cap, AtType, Frames(ps)) == Outcome(AtType, ps, 0, 0)
  {
    if ps != [] {
      FrameParses(cap, ps[0]);
      ParseConcat(cap, AtType, Frame(ps[0]), Frames(ps[1..]));
      FramingRoundTrip(cap, ps[1..]);
      assert [ps[0]] + ps[1..] == ps;
    }
  }
}
