/**
 L2CAP over ACL, as the host harness sends and reassembles it: `SendL2cap` cuts one
 packet into fragments no larger than the controller's buffers, `Link.TakeAcl` puts the
 fragments of all connections back together, one buffer per handle.
 */
module L2cap {
  import opened Octets

  datatype Message = Message(cid: u16, payload: seq<byte>)

  /** One ACL packet: its handle and Packet_Boundary_Flag word, and its data. */
  datatype Acl = Acl(word: u16, data: seq<byte>)

  type Handle = h: int | 0 <= h < 0x1000

  /** An ACL packet as it comes off the wire: two octets of handle and flags, two of length, then the data. */
  function AclOf(body: seq<byte>): Acl
    requires |body| >= 4
  {
    var length: nat := Le16(body[2], body[3]);
    Acl(Le16(body[0], body[1]), if 4 + length <= |body| then body[4..4 + length] else body[4..])
  }

  /** And as it goes out. */
  function WireOf(a: Acl): seq<byte>
    requires |a.data| <= 0xFFFF
  {
    [Lo(a.word), Hi(a.word), Lo(|a.data|), Hi(|a.data|)] + a.data
  }

  lemma WireRoundTrip(a: Acl)
    requires |a.data| <= 0xFFFF
    ensures |WireOf(a)| == 4 + |a.data| && AclOf(WireOf(a)) == a
  {
    hide Lo;
    hide Hi;
    hide Le16;
    assert WireOf(a)[4..4 + |a.data|] == a.data;
    Le16RoundTrip(a.word, 0, 0);
    Le16RoundTrip(|a.data|, 0, 0);
  }

  /** The octets of the wire, low ones first: twelve bits of handle, and the boundary flag above them. */
  lemma AclOnWire(w0: byte, w1: byte, n0: byte, n1: byte, data: seq<byte>)
    requires |data| == n0 + 0x100 * n1
    ensures var a := AclOf([w0, w1, n0, n1] + data);
            && a.data == data && HandleOf(a) == (w0 as int) + 0x100 * (w1 as int % 0x10)
            && (Starts(a) <==> w1 as int / 0x10 % 4 == 0 || w1 as int / 0x10 % 4 == 2)
  {
    var body := [w0, w1, n0, n1] + data;
    assert body[4..4 + |data|] == data;
    WordOctets(w0, w1);
  }

  lemma WordOctets(w0: byte, w1: byte)
    ensures Le16(w0, w1) == (w0 as int) + 0x100 * (w1 as int % 0x10) + 0x1000 * (w1 as int / 0x10)
    ensures Le16(w0, w1) % 0x1000 == (w0 as int) + 0x100 * (w1 as int % 0x10)
    ensures Le16(w0, w1) / 0x1000 == w1 as int / 0x10
  {
  }

  function HandleOf(a: Acl): Handle {
    a.word % 0x1000
  }

  function BoundaryOf(a: Acl): nat {
    (a.word / 0x1000) % 4
  }

  /** First fragment of a packet, in either of the two ways there are to say so. */
  predicate Starts(a: Acl) {
    BoundaryOf(a) == 0 || BoundaryOf(a) == 2
  }

  predicate Sendable(m: Message) {
    |m.payload| <= 0xFFFF
  }

  /** Length, channel, payload. */
  function Pack(m: Message): seq<byte>
    requires Sendable(m)
  {
    [Lo(|m.payload|), Hi(|m.payload|), Lo(m.cid), Hi(m.cid)] + m.payload
  }

  /** What the ACL data of `bytes` is once cut at `size`; `first` marks the piece that starts the packet. */
  function Cut(h: Handle, bytes: seq<byte>, size: nat, first: bool): (acls: seq<Acl>)
    requires 0 < size
    decreases |bytes|
  {
    if bytes == [] then []
    else
      var n := if |bytes| < size then |bytes| else size;
      [Acl(if first then h else h + 0x1000, bytes[..n])] + Cut(h, bytes[n..], size, false)
  }

  function ChunkSize(aclSize: u16): nat {
    if aclSize < 27 then 27 else aclSize
  }

  function Fragments(h: Handle, m: Message, aclSize: u16): seq<Acl>
    requires Sendable(m)
  {
    Cut(h, Pack(m), ChunkSize(aclSize), true)
  }

  /** The send loop; every fragment costs one credit. */
  method SendL2cap(h: Handle, m: Message, aclSize: u16) returns (written: seq<Acl>)
    requires Sendable(m)
    ensures written == Fragments(h, m, aclSize)
    ensures forall a :: a in written ==> HandleOf(a) == h && 0 < |a.data| <= ChunkSize(aclSize)
  {
    hide Cut;
    hide Pack;
    var bytes := Pack(m);
    var size := ChunkSize(aclSize);
    var off := 0;
    var first := true;
    written := [];
    assert |bytes| > 0 && bytes[0..] == bytes by { PackFields(m); }
    while off < |bytes|
      invariant 0 <= off
      invariant written + Rest(h, bytes, off, size, first) == Fragments(h, m, aclSize)
      invariant forall a :: a in written ==> HandleOf(a) == h && 0 < |a.data| <= size
      decreases |bytes| - off
    {
      CutStep(h, bytes, off, size, first);
      WordFields(h);
      var acl := Piece(h, bytes, off, size, first);
      assert HandleOf(acl) == h;
      written := written + [acl];
      first := false;
      off := off + size;
    }
  }

  function Rest(h: Handle, bytes: seq<byte>, off: nat, size: nat, first: bool): seq<Acl>
    requires 0 < size
  {
    if off < |bytes| then Cut(h, bytes[off..], size, first) else []
  }

  /** The fragment at `off`. */
  function Piece(h: Handle, bytes: seq<byte>, off: nat, size: nat, first: bool): Acl
    requires off < |bytes|
  {
    var n := if |bytes| - off < size then |bytes| - off else size;
    Acl(if first then h else h + 0x1000, bytes[off..off + n])
  }

  lemma CutStep(h: Handle, bytes: seq<byte>, off: nat, size: nat, first: bool)
    requires 0 < size && off < |bytes|
    ensures Cut(h, bytes[off..], size, first)
         == [Piece(h, bytes, off, size, first)]
            + (if off + size < |bytes| then Cut(h, bytes[off + size..], size, false) else [])
  {
    var n := if |bytes| - off < size then |bytes| - off else size;
    SliceSlice(bytes, off, n);
  }

  lemma SliceSlice(s: seq<byte>, off: nat, n: nat)
    requires off + n <= |s|
    ensures s[off..][..n] == s[off..off + n] && s[off..][n..] == s[off + n..]
    ensures s[..off] + s[off..off + n] == s[..off + n]
  {
  }

  // -------------------------------------------------------------------------
  // Reassembly.
  // -------------------------------------------------------------------------

  /** Outcome of one fragment on the buffer of its handle. */
  datatype Joined = Joined(buffer: Option<seq<byte>>, done: Option<Message>)

  function Join(buffer: Option<seq<byte>>, a: Acl): Joined {
    if !Starts(a) && buffer.None? then Joined(None, None)
    else
      var buf := if Starts(a) then a.data else buffer.value + a.data;
      if |buf| < 4 then Joined(Some(buf), None)
      else
        var need := Le16(buf[0], buf[1]) + 4;
        if |buf| < need then Joined(Some(buf), None)
        else Joined(None, Some(Message(Le16(buf[2], buf[3]), buf[4..need])))
  }

  /** A completed packet, and the connection it came in on. */
  datatype Arrival = Arrival(handle: Handle, message: Message)

  function Lookup(reasm: map<Handle, seq<byte>>, h: Handle): Option<seq<byte>> {
    if h in reasm then Some(reasm[h]) else None
  }

  class Link {
    var reasm: map<Handle, seq<byte>>
    var queue: seq<Message>
    ghost var arrivals: seq<Arrival>

    ghost predicate Valid()
      reads this
    {
      queue == Messages(arrivals)
    }

    constructor ()
      ensures Valid() && reasm == map[] && queue == [] && arrivals == []
    {
      reasm, queue, arrivals := map[], [], [];
    }

    /** One ACL packet read from the controller. */
    method TakeBody(body: seq<byte>)
      requires Valid() && |body| >= 4
      modifies this
      ensures Valid() && (reasm, arrivals) == Take(old(reasm), old(arrivals), AclOf(body))
    {
      TakeAcl(AclOf(body));
    }

    method TakeAcl(a: Acl)
      requires Valid()
      modifies this
      ensures Valid() && (reasm, arrivals) == Take(old(reasm), old(arrivals), a)
    {
      var h := HandleOf(a);
      var buf: seq<byte>;
      if Starts(a) {
        buf := a.data;
      } else if h in reasm {
        buf := reasm[h] + a.data;
      } else {
        assert reasm - {h} == reasm;
        return;
      }
      reasm := reasm[h := buf];
      if |buf| < 4 {
        return;
      }
      var need := Le16(buf[0], buf[1]) + 4;
      if |buf| >= need {
        var m := Message(Le16(buf[2], buf[3]), buf[4..need]);
        MessagesSnoc(arrivals, Arrival(h, m));
        queue := queue + [m];
        arrivals := arrivals + [Arrival(h, m)];
        reasm := map k | k in reasm && k != h :: reasm[k];
        assert reasm == old(reasm) - {h};
        assert Join(Lookup(old(reasm), h), a) == Joined(None, Some(m));
      }
    }
  }

  function Messages(arrivals: seq<Arrival>): seq<Message> {
    if arrivals == [] then [] else [arrivals[0].message] + Messages(arrivals[1..])
  }

  lemma {:induction false} MessagesSnoc(arrivals: seq<Arrival>, a: Arrival)
    ensures Messages(arrivals + [a]) == Messages(arrivals) + [a.message]
  {
    if arrivals == [] {
      assert arrivals + [a] == [a];
    } else {
      assert (arrivals + [a])[1..] == arrivals[1..] + [a];
      MessagesSnoc(arrivals[1..], a);
    }
  }

  function Take(reasm: map<Handle, seq<byte>>, arrivals: seq<Arrival>, a: Acl)
    : (map<Handle, seq<byte>>, seq<Arrival>)
  {
    var h := HandleOf(a);
    var j := Join(Lookup(reasm, h), a);
    (if j.buffer.Some? then reasm[h := j.buffer.value] else reasm - {h},
     if j.done.Some? then arrivals + [Arrival(h, j.done.value)] else arrivals)
  }

  /** All packets read so far, in the order the controller sent them. */
  function TakeAll(reasm: map<Handle, seq<byte>>, arrivals: seq<Arrival>, acls: seq<Acl>)
    : (map<Handle, seq<byte>>, seq<Arrival>)
    decreases |acls|
  {
    if acls == [] then (reasm, arrivals)
    else
      var next := Take(reasm, arrivals, acls[0]);
      TakeAll(next.0, next.1, acls[1..])
  }

  // -------------------------------------------------------------------------
  // One connection at a time.
  // -------------------------------------------------------------------------

  /** The packets of one connection within an interleaving. */
  function OfHandle(acls: seq<Acl>, h: Handle): seq<Acl> {
    if acls == [] then []
    else (if HandleOf(acls[0]) == h then [acls[0]] else []) + OfHandle(acls[1..], h)
  }

  function ArrivedOn(arrivals: seq<Arrival>, h: Handle): seq<Message> {
    if arrivals == [] then [] else OnHandle(arrivals[0], h) + ArrivedOn(arrivals[1..], h)
  }

  function OnHandle(a: Arrival, h: Handle): seq<Message> {
    if a.handle == h then [a.message] else []
  }

  lemma {:induction false} ArrivedOnSnoc(arrivals: seq<Arrival>, a: Arrival, h: Handle)
    ensures ArrivedOn(arrivals + [a], h) == ArrivedOn(arrivals, h) + OnHandle(a, h)
  {
    hide OnHandle;
    if arrivals == [] {
      assert arrivals + [a] == [a] && [a][1..] == [];
      assert OnHandle(a, h) + [] == [] + OnHandle(a, h);
    } else {
      assert (arrivals + [a])[0] == arrivals[0] && (arrivals + [a])[1..] == arrivals[1..] + [a];
      ArrivedOnSnoc(arrivals[1..], a, h);
      var head, rest := OnHandle(arrivals[0], h), ArrivedOn(arrivals[1..], h);
      assert head + (rest + OnHandle(a, h)) == (head + rest) + OnHandle(a, h);
    }
  }

  function Done(j: Joined): seq<Message> {
    if j.done.Some? then [j.done.value] else []
  }

  /** One connection's buffer and messages after its own packets. */
  function JoinAll(buffer: Option<seq<byte>>, acls: seq<Acl>): (Option<seq<byte>>, seq<Message>)
    decreases |acls|
  {
    if acls == [] then (buffer, [])
    else
      var j := Join(buffer, acls[0]);
      var rest := JoinAll(j.buffer, acls[1..]);
      (rest.0, Done(j) + rest.1)
  }

  /** One packet touches its own connection only. */
  lemma TakeTouchesOwn(reasm: map<Handle, seq<byte>>, arrivals: seq<Arrival>, a: Acl, h: Handle)
    ensures HandleOf(a) == h ==> Lookup(Take(reasm, arrivals, a).0, h) == Join(Lookup(reasm, h), a).buffer
    ensures HandleOf(a) == h ==>
              ArrivedOn(Take(reasm, arrivals, a).1, h) == ArrivedOn(arrivals, h) + Done(Join(Lookup(reasm, h), a))
    ensures HandleOf(a) != h ==> Lookup(Take(reasm, arrivals, a).0, h) == Lookup(reasm, h)
    ensures HandleOf(a) != h ==> ArrivedOn(Take(reasm, arrivals, a).1, h) == ArrivedOn(arrivals, h)
  {
    hide Join;
    var j := Join(Lookup(reasm, HandleOf(a)), a);
    if j.done.Some? {
      ArrivedOnSnoc(arrivals, Arrival(HandleOf(a), j.done.value), h);
    }
    assert ArrivedOn(arrivals, h) + [] == ArrivedOn(arrivals, h);
  }

  /** Interleaved connections do not see each other. */
  lemma {:induction false} ConnectionsAreSeparate(reasm: map<Handle, seq<byte>>, arrivals: seq<Arrival>,
                                                  acls: seq<Acl>, h: Handle)
    ensures var end := TakeAll(reasm, arrivals, acls);
            var own := JoinAll(Lookup(reasm, h), OfHandle(acls, h));
            Lookup(end.0, h) == own.0 && ArrivedOn(end.1, h) == ArrivedOn(arrivals, h) + own.1
    decreases |acls|
  {
    hide Join;
    hide Take;
    hide Lookup;
    hide ArrivedOn;
    if acls == [] {
      assert ArrivedOn(arrivals, h) + [] == ArrivedOn(arrivals, h);
    } else {
      var a := acls[0];
      var next := Take(reasm, arrivals, a);
      ConnectionsAreSeparate(next.0, next.1, acls[1..], h);
      TakeTouchesOwn(reasm, arrivals, a, h);
      OfHandleStep(acls, h);
      if HandleOf(a) == h {
        JoinAllStep(Lookup(reasm, h), OfHandle(acls, h));
        var done := Done(Join(Lookup(reasm, h), a));
        var rest := JoinAll(Lookup(next.0, h), OfHandle(acls[1..], h)).1;
        assert (ArrivedOn(arrivals, h) + done) + rest == ArrivedOn(arrivals, h) + (done + rest);
      }
    }
  }

  lemma OfHandleStep(acls: seq<Acl>, h: Handle)
    requires acls != []
    ensures HandleOf(acls[0]) == h ==> OfHandle(acls, h) == [acls[0]] + OfHandle(acls[1..], h)
    ensures HandleOf(acls[0]) == h ==> OfHandle(acls, h)[0] == acls[0]
    ensures HandleOf(acls[0]) == h ==> OfHandle(acls, h)[1..] == OfHandle(acls[1..], h)
    ensures HandleOf(acls[0]) != h ==> OfHandle(acls, h) == OfHandle(acls[1..], h)
  {
  }

  lemma JoinAllStep(buffer: Option<seq<byte>>, acls: seq<Acl>)
    requires acls != []
    ensures JoinAll(buffer, acls).0 == JoinAll(Join(buffer, acls[0]).buffer, acls[1..]).0
    ensures JoinAll(buffer, acls).1 == Done(Join(buffer, acls[0]))
                                       + JoinAll(Join(buffer, acls[0]).buffer, acls[1..]).1
  {
  }

  lemma {:induction false} JoinAllConcat(buffer: Option<seq<byte>>, a: seq<Acl>, b: seq<Acl>)
    ensures var first := JoinAll(buffer, a);
            JoinAll(buffer, a + b) == (JoinAll(first.0, b).0, first.1 + JoinAll(first.0, b).1)
    decreases |a|
  {
    hide Join;
    if a == [] {
      assert a + b == b;
      assert [] + JoinAll(buffer, b).1 == JoinAll(buffer, b).1;
    } else {
      assert (a + b)[0] == a[0] && (a + b)[1..] == a[1..] + b;
      var j := Join(buffer, a[0]);
      JoinAllConcat(j.buffer, a[1..], b);
      var done := Done(j);
      var mid := JoinAll(j.buffer, a[1..]);
      assert done + (mid.1 + JoinAll(mid.0, b).1) == (done + mid.1) + JoinAll(mid.0, b).1;
    }
  }

  // -------------------------------------------------------------------------
  // Round trip.
  // -------------------------------------------------------------------------

  lemma PackFields(m: Message)
    requires Sendable(m)
    ensures Le16(Pack(m)[0], Pack(m)[1]) == |m.payload| && Le16(Pack(m)[2], Pack(m)[3]) == m.cid
    ensures Pack(m)[4..] == m.payload && |Pack(m)| == 4 + |m.payload|
  {
    Le16RoundTrip(|m.payload|, 0, 0);
    Le16RoundTrip(m.cid, 0, 0);
  }

  lemma WordFields(h: Handle)
    ensures HandleOf(Acl(h, [])) == h && Starts(Acl(h, []))
    ensures HandleOf(Acl(h + 0x1000, [])) == h && !Starts(Acl(h + 0x1000, []))
  {
  }

  /** A buffer that holds the first `k` octets of a packet: completed exactly at its end. */
  lemma JoinPacket(m: Message, k: nat, buffer: Option<seq<byte>>, a: Acl)
    requires Sendable(m) && 4 <= k <= |Pack(m)| && (Starts(a) || buffer.Some?)
    requires (if Starts(a) then a.data else buffer.value + a.data) == Pack(m)[..k]
    ensures Join(buffer, a)
         == if k < |Pack(m)| then Joined(Some(Pack(m)[..k]), None) else Joined(None, Some(m))
  {
    PackFields(m);
    var buf := Pack(m)[..k];
    assert buf[0] == Pack(m)[0] && buf[1] == Pack(m)[1] && buf[2] == Pack(m)[2] && buf[3] == Pack(m)[3];
    if k == |Pack(m)| {
      assert buf[4..k] == m.payload;
    }
  }

  /** Continuation fragments, joined onto what has arrived of a packet, complete exactly that packet. */
  lemma {:induction false} ContinuationsComplete(h: Handle, m: Message, at: nat, size: nat)
    requires Sendable(m) && 27 <= size && 4 <= at < |Pack(m)|
    ensures JoinAll(Some(Pack(m)[..at]), Cut(h, Pack(m)[at..], size, false)) == (None, [m])
    decreases |Pack(m)| - at
  {
    hide Cut;
    hide Join;
    hide Pack;
    hide JoinAll;
    var p := Pack(m);
    WordFields(h);
    var n := if |p| - at < size then |p| - at else size;
    CutStep(h, p, at, size, false);
    var a := Piece(h, p, at, size, false);
    assert BoundaryOf(a) == BoundaryOf(Acl(h + 0x1000, []));
    SliceSlice(p, at, n);
    JoinPacket(m, at + n, Some(p[..at]), a);
    if at + size < |p| {
      ContinuationsComplete(h, m, at + size, size);
      OneThen(Some(p[..at]), a, Cut(h, p[at + size..], size, false));
      assert [] + [m] == [m];
    } else {
      OneThen(Some(p[..at]), a, []);
      JoinNothing();
      assert [m] + [] == [m];
    }
  }

  lemma JoinNothing()
    ensures JoinAll(None, []) == (None, [])
  {
  }

  lemma OneThen(buffer: Option<seq<byte>>, a: Acl, rest: seq<Acl>)
    ensures JoinAll(buffer, [a] + rest).0 == JoinAll(Join(buffer, a).buffer, rest).0
    ensures JoinAll(buffer, [a] + rest).1 == Done(Join(buffer, a))
                                            + JoinAll(Join(buffer, a).buffer, rest).1
  {
    assert ([a] + rest)[1..] == rest;
  }

  /** Length and channel, low octets first, then the payload: one start fragment that holds it all is the message. */
  lemma JoinOnWire(buffer: Option<seq<byte>>, word: u16, l0: byte, l1: byte, c0: byte, c1: byte, payload: seq<byte>)
    requires |payload| == l0 + 0x100 * l1
    requires word / 0x1000 % 4 == 0 || word / 0x1000 % 4 == 2
    ensures Join(buffer, Acl(word, [l0, l1, c0, c1] + payload))
         == Joined(None, Some(Message((c0 as int) + 0x100 * (c1 as int), payload)))
  {
    var data := [l0, l1, c0, c1] + payload;
    assert data[4..4 + |payload|] == payload;
  }

  function DataOf(acls: seq<Acl>): seq<byte> {
    if acls == [] then [] else acls[0].data + DataOf(acls[1..])
  }

  /** What is sent: the whole packet in order, each piece full but the last, the first marked 00 and the others 01. */
  lemma {:induction false} CutWhole(h: Handle, bytes: seq<byte>, size: nat, first: bool)
    requires 0 < size
    ensures var acls := Cut(h, bytes, size, first);
            && DataOf(acls) == bytes
            && (forall i :: 0 <= i < |acls| ==> acls[i].word == if i == 0 && first then h else h + 0x1000)
            && (forall i :: 0 <= i < |acls| - 1 ==> |acls[i].data| == size)
            && (acls != [] ==> 0 < |acls[|acls| - 1].data| <= size)
    decreases |bytes|
  {
    if bytes != [] {
      var n := if |bytes| < size then |bytes| else size;
      CutWhole(h, bytes[n..], size, false);
      var acls := Cut(h, bytes, size, first);
      assert acls[1..] == Cut(h, bytes[n..], size, false);
      assert bytes[..n] + bytes[n..] == bytes;
      assert n < size ==> bytes[n..] == [];
    }
  }

  lemma FragmentsOnWire(h: Handle, m: Message, aclSize: u16)
    requires Sendable(m)
    ensures var (acls, size) := (Fragments(h, m, aclSize), if aclSize < 27 then 27 else aclSize as nat);
            && acls != [] && DataOf(acls)[4..] == m.payload && |DataOf(acls)| == 4 + |m.payload|
            && (DataOf(acls)[0] as int) + 0x100 * (DataOf(acls)[1] as int) == |m.payload|
            && (DataOf(acls)[2] as int) + 0x100 * (DataOf(acls)[3] as int) == m.cid
            && (forall i :: 0 <= i < |acls| ==> acls[i].word == if i == 0 then h else h + 0x1000)
            && (forall i :: 0 <= i < |acls| - 1 ==> |acls[i].data| == size) && |acls[|acls| - 1].data| <= size
  {
    hide Lo;
    hide Hi;
    hide Cut;
    CutWhole(h, Pack(m), ChunkSize(aclSize), true);
    PackFields(m);
    assert DataOf([]) == [];
  }

  /** The same fragment, a first one possibly marked the way a controller marks it, with flag 10 for 00. */
  predicate SameFragment(sent: Acl, received: Acl) {
    && received.data == sent.data
    && (received.word == sent.word || (sent.word < 0x1000 && received.word == sent.word + 0x2000))
  }

  predicate SameFragments(sent: seq<Acl>, received: seq<Acl>) {
    |received| == |sent| && forall i :: 0 <= i < |sent| ==> SameFragment(sent[i], received[i])
  }

  lemma SameJoins(buffer: Option<seq<byte>>, sent: Acl, received: Acl)
    requires SameFragment(sent, received)
    ensures HandleOf(received) == HandleOf(sent) && Join(buffer, received) == Join(buffer, sent)
  {
    if received.word != sent.word {
      MarkedStarts(sent.word);
    }
  }

  lemma MarkedStarts(h: Handle)
    ensures (h + 0x2000) % 0x1000 == h && (h + 0x2000) / 0x1000 % 4 == 2 && h / 0x1000 % 4 == 0 && h % 0x1000 == h
  {
  }

  /** The two marks mean the same. */
  lemma {:induction false} SameJoinAll(buffer: Option<seq<byte>>, sent: seq<Acl>, received: seq<Acl>)
    requires SameFragments(sent, received)
    ensures JoinAll(buffer, received) == JoinAll(buffer, sent)
    decreases |sent|
  {
    hide Join;
    hide SameFragment;
    if sent != [] {
      assert SameFragment(sent[0], received[0]);
      SameJoins(buffer, sent[0], received[0]);
      forall i | 0 <= i < |sent[1..]| ensures SameFragment(sent[1..][i], received[1..][i]) {
        assert SameFragment(sent[i + 1], received[i + 1]);
      }
      SameJoinAll(Join(buffer, sent[0]).buffer, sent[1..], received[1..]);
    }
  }

  /** One packet's fragments give that packet, whatever was left in the buffer and however its start is marked. */
  lemma PacketRoundTrip(h: Handle, m: Message, aclSize: u16, buffer: Option<seq<byte>>, received: seq<Acl>)
    requires Sendable(m) && SameFragments(Fragments(h, m, aclSize), received)
    ensures JoinAll(buffer, received) == (None, [m])
  {
    hide JoinAll;
    hide Fragments;
    hide SameFragments;
    FragmentsRoundTrip(h, m, aclSize, buffer);
    SameJoinAll(buffer, Fragments(h, m, aclSize), received);
  }

  lemma FragmentsRoundTrip(h: Handle, m: Message, aclSize: u16, buffer: Option<seq<byte>>)
    requires Sendable(m)
    ensures JoinAll(buffer, Fragments(h, m, aclSize)) == (None, [m])
  {
    hide Cut;
    hide Join;
    hide Pack;
    hide JoinAll;
    var p := Pack(m);
    var size := ChunkSize(aclSize);
    PackFields(m);
    WordFields(h);
    assert p[0..] == p;
    CutStep(h, p, 0, size, true);
    var n := if |p| < size then |p| else size;
    var a := Piece(h, p, 0, size, true);
    assert BoundaryOf(a) == BoundaryOf(Acl(h, []));
    assert p[0..n] == p[..n];
    JoinPacket(m, n, buffer, a);
    if size < |p| {
      ContinuationsComplete(h, m, size, size);
      OneThen(buffer, a, Cut(h, p[size..], size, false));
      assert [] + [m] == [m];
    } else {
      OneThen(buffer, a, []);
      JoinNothing();
      assert [m] + [] == [m];
    }
  }

  /** The fragments of several packets sent one after another on one connection. */
  function Stream(h: Handle, ms: seq<Message>, aclSize: u16): seq<Acl>
    requires forall m :: m in ms ==> Sendable(m)
  {
    if ms == [] then [] else Fragments(h, ms[0], aclSize) + Stream(h, ms[1..], aclSize)
  }

  lemma {:induction false} SentRoundTrip(h: Handle, ms: seq<Message>, aclSize: u16)
    requires forall m :: m in ms ==> Sendable(m)
    ensures JoinAll(None, Stream(h, ms, aclSize)) == (None, ms)
  {
    hide Fragments;
    if ms != [] {
      FragmentsRoundTrip(h, ms[0], aclSize, None);
      SentRoundTrip(h, ms[1..], aclSize);
      JoinAllConcat(None, Fragments(h, ms[0], aclSize), Stream(h, ms[1..], aclSize));
      assert [ms[0]] + ms[1..] == ms;
    }
  }

  lemma StreamRoundTrip(h: Handle, ms: seq<Message>, aclSize: u16, received: seq<Acl>)
    requires (forall m :: m in ms ==> Sendable(m)) && SameFragments(Stream(h, ms, aclSize), received)
    ensures JoinAll(None, received) == (None, ms)
  {
    hide JoinAll;
    hide SameFragments;
    SentRoundTrip(h, ms, aclSize);
    SameJoinAll(None, Stream(h, ms, aclSize), received);
  }

  /**
   Any interleaving of the fragment streams of distinct connections reassembles, on each
   connection, to exactly the packets sent on it, each once and in order, with nothing left over.
   */
  lemma InterleavingRoundTrip(acls: seq<Acl>, sent: map<Handle, seq<Message>>, aclSize: u16)
    requires forall h, m :: h in sent && m in sent[h] ==> Sendable(m)
    requires forall h: Handle ::
               SameFragments(if h in sent then Stream(h, sent[h], aclSize) else [], OfHandle(acls, h))
    ensures var end := TakeAll(map[], [], acls);
            && end.0 == map[]
            && forall h: Handle :: ArrivedOn(end.1, h) == if h in sent then sent[h] else []
  {
    var end := TakeAll(map[], [], acls);
    forall h: Handle
      ensures Lookup(end.0, h) == None
      ensures ArrivedOn(end.1, h) == if h in sent then sent[h] else []
    {
      ConnectionsAreSeparate(map[], [], acls, h);
      if h in sent {
        StreamRoundTrip(h, sent[h], aclSize, OfHandle(acls, h));
      }
    }
    assert forall h: Handle :: h in end.0 ==> Lookup(end.0, h) != None;
  }
}
