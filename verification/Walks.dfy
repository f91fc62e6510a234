/**
 Walks over variable-length parameters: the subevent data of LE Set Periodic Advertising
 Subevent Data (Core Vol 4 Part E section 7.8.125), the AES-CCM request (RFC 3610
 parameters) and the HMAC request. Each accepts exactly the encodings.
 */
module Walks {
  import opened Octets

  // -------------------------------------------------------------------------
  // Subevent data.
  // -------------------------------------------------------------------------

  /** One entry: where its response slots are, and its data behind a one-octet length. */
  datatype Subevent = Subevent(subevent: byte, slotStart: byte, slotCount: byte, data: seq<byte>)

  predicate Encodable(e: Subevent) {
    |e.data| < 0x100
  }

  function Encode(e: Subevent): seq<byte>
    requires Encodable(e)
  {
    [e.subevent, e.slotStart, e.slotCount, |e.data|] + e.data
  }

  function EncodeAll(es: seq<Subevent>): seq<byte>
    requires forall e :: e in es ==> Encodable(e)
  {
    if es == [] then [] else Encode(es[0]) + EncodeAll(es[1..])
  }

  /** Adding an entry at the end. */
  lemma {:induction false} EncodeAllSnoc(es: seq<Subevent>, e: Subevent)
    requires Encodable(e) && forall d :: d in es ==> Encodable(d)
    ensures EncodeAll(es + [e]) == EncodeAll(es) + Encode(e)
  {
    if es == [] {
      assert es + [e] == [e];
      assert [e][1..] == [];
    } else {
      assert (es + [e])[0] == es[0] && (es + [e])[1..] == es[1..] + [e];
      EncodeAllSnoc(es[1..], e);
      assert Encode(es[0]) + (EncodeAll(es[1..]) + Encode(e)) == Encode(es[0]) + EncodeAll(es[1..]) + Encode(e);
    }
  }

  /** The tail is exactly `count` entries, and these are they. */
  ghost predicate Holds(tail: seq<byte>, count: nat, es: seq<Subevent>) {
    |es| == count && (forall e :: e in es ==> Encodable(e)) && EncodeAll(es) == tail
  }

  /** The tail is a concatenation of exactly `count` length-prefixed entries. */
  ghost predicate IsEncoding(tail: seq<byte>, count: nat) {
    exists es :: Holds(tail, count, es)
  }

  /** The walk over the entries. */
  method WalkSubevents(count: byte, tail: seq<byte>) returns (accepted: bool)
    ensures accepted <==> IsEncoding(tail, count)
  {
    var offset := 0;
    ghost var entries: seq<Subevent> := [];
    var i := 0;
    assert tail[..0] == [];
    while i < count
      invariant 0 <= i <= count && 0 <= offset <= |tail|
      invariant Holds(tail[..offset], i, entries)
    {
      if |tail| - offset < 4 {
        RejectedHead(tail, count, i, offset, entries);
        return false;
      }
      var dataLen := tail[offset + 3];
      if |tail| - offset - 4 < dataLen {
        RejectedHead(tail, count, i, offset, entries);
        return false;
      }
      ExtendPrefix(tail, offset, i, entries);
      entries := entries + [EntryAt(tail, offset)];
      offset := offset + 4 + dataLen;
      i := i + 1;
    }
    if offset != |tail| {
      RejectedTail(tail, count, offset, entries);
      return false;
    }
    assert tail[..offset] == tail;
    assert Holds(tail, count, entries);
    return true;
  }

  const SUCCESS: byte := 0x00
  const MEMORY_CAPACITY_EXCEEDED: byte := 0x07
  const INVALID_HCI_PARAMETERS: byte := 0x12
  /** The return parameters are the Advertising_Handle. */
  const SUBEVENT_RETURN_LEN := 1

  /**
   The whole handler over Advertising_Handle, Num_Subevents and the tail, with `room` for
   return parameters: the controller, which would answer `answer`, is reached exactly with
   room for its return and well-formed entries; room is asked for first.
   */
  method SetSubeventData(params: seq<byte>, room: nat, answer: byte)
    returns (status: byte, returned: nat, reached: bool)
    ensures reached <==> room >= 1 && |params| >= 2 && IsEncoding(params[2..], params[1])
    ensures status == if room < 1 then 0x07 else if reached then answer else 0x12
    ensures returned == if reached && answer == 0x00 then 1 else 0
    ensures returned <= room
  {
    if room < SUBEVENT_RETURN_LEN {
      return MEMORY_CAPACITY_EXCEEDED, 0, false;
    }
    if |params| < 2 {
      return INVALID_HCI_PARAMETERS, 0, false;
    }
    reached := WalkSubevents(params[1], params[2..]);
    status := if reached then answer else INVALID_HCI_PARAMETERS;
    returned := if reached && answer == SUCCESS then SUBEVENT_RETURN_LEN else 0;
  }

  /** One entry by its places: the fourth octet says how much data follows. */
  lemma EntryOnWire(s: byte, start: byte, slots: byte, len: byte, data: seq<byte>)
    requires |data| == len as int
    ensures IsEncoding([s, start, slots, len] + data, 1)
    ensures Holds([s, start, slots, len] + data, 1, [Subevent(s, start, slots, data)])
  {
    var e := Subevent(s, start, slots, data);
    assert [e][1..] == [];
    assert Encode(e) + [] == [s, start, slots, len] + data;
    assert Holds([s, start, slots, len] + data, 1, [e]);
  }

  function EntryAt(tail: seq<byte>, offset: nat): (e: Subevent)
    requires offset + 4 <= |tail| && offset + 4 + tail[offset + 3] <= |tail|
    ensures Encodable(e)
  {
    Subevent(tail[offset], tail[offset + 1], tail[offset + 2], tail[offset + 4..offset + 4 + tail[offset + 3]])
  }

  lemma EntryAtEncodes(tail: seq<byte>, offset: nat)
    requires offset + 4 <= |tail| && offset + 4 + tail[offset + 3] <= |tail|
    ensures Encode(EntryAt(tail, offset)) == tail[offset..offset + 4 + tail[offset + 3]]
  {
  }

  lemma ExtendPrefix(tail: seq<byte>, offset: nat, i: nat, entries: seq<Subevent>)
    requires offset + 4 <= |tail| && offset + 4 + tail[offset + 3] <= |tail|
    requires Holds(tail[..offset], i, entries)
    ensures Holds(tail[..offset + 4 + tail[offset + 3]], i + 1, entries + [EntryAt(tail, offset)])
  {
    var end := offset + 4 + tail[offset + 3];
    EncodeAllSnoc(entries, EntryAt(tail, offset));
    EntryAtEncodes(tail, offset);
    assert tail[..end] == tail[..offset] + tail[offset..end];
  }

  /** An encoding starts with its first entry, whose length field says where the next one is. */
  lemma EncodingHead(es: seq<Subevent>)
    requires es != [] && forall e :: e in es ==> Encodable(e)
    ensures var bytes := EncodeAll(es);
            && |bytes| >= 4 + |es[0].data| && bytes[3] == |es[0].data|
            && bytes[..4 + |es[0].data|] == Encode(es[0]) && bytes[4 + |es[0].data|..] == EncodeAll(es[1..])
  {
  }

  lemma EncodeInjective(d: Subevent, e: Subevent)
    requires Encodable(d) && Encodable(e) && Encode(d) == Encode(e)
    ensures d == e
  {
    assert Encode(d)[4..] == d.data && Encode(e)[4..] == e.data;
    assert Encode(d)[0] == d.subevent && Encode(d)[1] == d.slotStart && Encode(d)[2] == d.slotCount;
    assert Encode(e)[0] == e.subevent && Encode(e)[1] == e.slotStart && Encode(e)[2] == e.slotCount;
  }

  /** Of two encodings, one of which starts the other, one entry list starts the other. */
  lemma {:induction false} PrefixDecodes(es: seq<Subevent>, ds: seq<Subevent>, rest: seq<byte>)
    requires (forall e :: e in es ==> Encodable(e)) && (forall d :: d in ds ==> Encodable(d))
    requires EncodeAll(es) == EncodeAll(ds) + rest && |ds| <= |es|
    ensures es[..|ds|] == ds && EncodeAll(es[|ds|..]) == rest
    decreases |ds|
  {
    if ds == [] {
      assert EncodeAll(ds) + rest == rest;
      assert es[..0] == [] && es[0..] == es;
    } else {
      var whole := EncodeAll(es);
      EncodingHead(es);
      EncodingHead(ds);
      assert whole[3] == EncodeAll(ds)[3];
      var n := 4 + |es[0].data|;
      assert whole[..n] == EncodeAll(ds)[..n];
      EncodeInjective(es[0], ds[0]);
      assert whole[n..] == EncodeAll(ds)[n..] + rest;
      PrefixDecodes(es[1..], ds[1..], rest);
      assert es == [es[0]] + es[1..] && ds == [ds[0]] + ds[1..];
      assert es[|ds|..] == es[1..][|ds| - 1..];
      assert es[..|ds|] == [es[0]] + es[1..][..|ds| - 1];
    }
  }

  /** Unique decomposition: one tail has at most one entry list, whatever its count. */
  lemma UniqueDecomposition(tail: seq<byte>, m: nat, n: nat, ds: seq<Subevent>, es: seq<Subevent>)
    requires Holds(tail, m, ds) && Holds(tail, n, es)
    ensures m == n && ds == es
  {
    assert tail + [] == tail;
    if m <= n {
      PrefixDecodes(es, ds, []);
      NoEntriesInNothing(es[m..]);
      assert es == es[..m] + es[m..];
    } else {
      PrefixDecodes(ds, es, []);
      NoEntriesInNothing(ds[n..]);
    }
  }

  lemma NoEntriesInNothing(es: seq<Subevent>)
    requires (forall e :: e in es ==> Encodable(e)) && EncodeAll(es) == []
    ensures es == []
  {
    if es != [] {
      EncodingHead(es);
    }
  }

  /** The walk's two early returns: no list of entries is behind such a tail. */
  lemma RejectedHead(tail: seq<byte>, count: nat, i: nat, offset: nat, entries: seq<Subevent>)
    requires i < count && offset <= |tail| && Holds(tail[..offset], i, entries)
    requires |tail| - offset < 4 || |tail| - offset - 4 < tail[offset + 3]
    ensures !IsEncoding(tail, count)
  {
    forall es | Holds(tail, count, es) ensures false {
      assert tail == tail[..offset] + tail[offset..];
      PrefixDecodes(es, entries, tail[offset..]);
      EncodingHead(es[i..]);
    }
  }

  lemma RejectedTail(tail: seq<byte>, count: nat, offset: nat, entries: seq<Subevent>)
    requires offset < |tail| && Holds(tail[..offset], count, entries)
    ensures !IsEncoding(tail, count)
  {
    forall es | Holds(tail, count, es) ensures false {
      assert tail == tail[..offset] + tail[offset..];
      assert es[count..] == [];
      PrefixDecodes(es, entries, tail[offset..]);
    }
  }

  // -------------------------------------------------------------------------
  // AES-CCM.
  // -------------------------------------------------------------------------

  const KEY_LEN: nat := 16
  const TAG_MAX: nat := 16
  const RETURN_MAX: nat := 251

  /** A request; `tag` is what a decryption is to check, and empty on encryption. */
  datatype CcmRequest = CcmRequest(flags: byte, key: seq<byte>, nonce: seq<byte>, aad: seq<byte>,
                                   tagLen: byte, msg: seq<byte>, tag: seq<byte>)

  predicate Decrypts(flags: byte) {
    flags % 2 == 1
  }

  /** Octets a request answers with: the message, and its tag on encryption. */
  function ReturnLen(r: CcmRequest): nat {
    |r.msg| + if Decrypts(r.flags) then 0 else r.tagLen
  }

  predicate ValidCcm(r: CcmRequest) {
    && |r.key| == KEY_LEN && 7 <= |r.nonce| <= 13 && |r.aad| < 0x100 && |r.msg| < 0x100
    && 4 <= r.tagLen <= TAG_MAX && r.tagLen % 2 == 0
    && |r.tag| == (if Decrypts(r.flags) then r.tagLen else 0)
    && ReturnLen(r) <= RETURN_MAX
  }

  /** A string behind its length octet. */
  function Counted(x: seq<byte>): seq<byte>
    requires |x| < 0x100
  {
    [|x|] + x
  }

  function EncodeCcm(r: CcmRequest): seq<byte>
    requires ValidCcm(r)
  {
    [r.flags] + (r.key + (Counted(r.nonce) + (Counted(r.aad) + ([r.tagLen] + (Counted(r.msg) + r.tag)))))
  }

  /** A counted string off the front, and what is left. */
  function TakeCounted(s: seq<byte>): Option<(seq<byte>, seq<byte>)> {
    if s == [] then None
    else
      var n: nat := s[0];
      if |s| < 1 + n then None else Some((s[1..1 + n], s[1 + n..]))
  }

  lemma TakeCountedExactly(s: seq<byte>, x: seq<byte>, rest: seq<byte>)
    ensures TakeCounted(s) == Some((x, rest)) <==> |x| < 0x100 && s == Counted(x) + rest
  {
    if |x| < 0x100 && s == Counted(x) + rest {
      assert s[1..1 + |x|] == x && s[1 + |x|..] == rest;
    }
  }

  /** What stands behind the flags and the key. */
  function CcmFields(flags: byte, key: seq<byte>, s: seq<byte>): Option<CcmRequest> {
    match TakeCounted(s)
    case None => None
    case Some((nonce, s1)) =>
      match TakeCounted(s1)
      case None => None
      case Some((aad, s2)) =>
        if s2 == [] then None
        else
          match TakeCounted(s2[1..])
          case None => None
          case Some((msg, tag)) => Some(CcmRequest(flags, key, nonce, aad, s2[0], msg, tag))
  }

  function CcmOf(p: seq<byte>): Option<CcmRequest> {
    if |p| < 1 + KEY_LEN then None
    else
      var fields := CcmFields(p[0], p[1..1 + KEY_LEN], p[1 + KEY_LEN..]);
      if fields.Some? && ValidCcm(fields.value) then fields else None
  }

  lemma FieldsExactly(s: seq<byte>, r: CcmRequest)
    requires |r.nonce| < 0x100 && |r.aad| < 0x100 && |r.msg| < 0x100
    ensures CcmFields(r.flags, r.key, s) == Some(r)
       <==> s == Counted(r.nonce) + (Counted(r.aad) + ([r.tagLen] + (Counted(r.msg) + r.tag)))
  {
    hide TakeCounted;
    hide Counted;
    var s3 := Counted(r.msg) + r.tag;
    var s2 := [r.tagLen] + s3;
    var s1 := Counted(r.aad) + s2;
    assert s2[1..] == s3;
    TakeCountedExactly(s3, r.msg, r.tag);
    TakeCountedExactly(s1, r.aad, s2);
    TakeCountedExactly(s, r.nonce, s1);
    if CcmFields(r.flags, r.key, s) == Some(r) {
      var t1 := TakeCounted(s).value.1;
      var t2 := TakeCounted(t1).value.1;
      TakeCountedExactly(s, r.nonce, t1);
      TakeCountedExactly(t1, r.aad, t2);
      TakeCountedExactly(t2[1..], r.msg, r.tag);
      assert t2 == [t2[0]] + t2[1..];
    }
  }

  /** Parsing inverts encoding, and nothing but an encoding is accepted. */
  lemma CcmAcceptsExactlyEncodings(p: seq<byte>, r: CcmRequest)
    ensures CcmOf(p) == Some(r) <==> ValidCcm(r) && p == EncodeCcm(r)
  {
    hide CcmFields;
    hide Counted;
    if CcmOf(p) == Some(r) {
      assert CcmFields(p[0], p[1..1 + KEY_LEN], p[1 + KEY_LEN..]) == Some(r);
      CcmFieldsKeep(p[0], p[1..1 + KEY_LEN], p[1 + KEY_LEN..]);
      FieldsExactly(p[1 + KEY_LEN..], r);
      assert p == [p[0]] + (p[1..1 + KEY_LEN] + p[1 + KEY_LEN..]);
    }
    if ValidCcm(r) && p == EncodeCcm(r) {
      var s := p[1 + KEY_LEN..];
      assert p[1..1 + KEY_LEN] == r.key && p[0] == r.flags;
      FieldsExactly(s, r);
    }
  }

  /**
   A request as its octets lie: flags, sixteen octets of key, the nonce behind its length, the
   associated data behind its length, the tag length, the message behind its length, and on
   decryption the tag. The nonce has 7 to 13 octets, the tag 4 to 16 and an even number, the
   length adds up, and no more than 251 octets are to be returned.
   */
  predicate CcmLaidOut(p: seq<byte>) {
    && |p| >= 21 && 7 <= p[17] <= 13
    && var n: nat := p[17];
       && |p| >= 21 + n
       && var a: nat := p[18 + n];
          && |p| >= 21 + n + a
          && var tag: nat := p[19 + n + a];
             && var m: nat := p[20 + n + a];
                && 4 <= tag <= 16 && tag % 2 == 0
                && |p| == 21 + n + a + m + (if p[0] % 2 == 1 then tag else 0)
                && m + (if p[0] % 2 == 1 then 0 else tag) <= 251
  }

  function CcmRead(p: seq<byte>): CcmRequest
    requires CcmLaidOut(p)
  {
    var n: nat := p[17];
    var a: nat := p[18 + n];
    var m: nat := p[20 + n + a];
    CcmRequest(p[0], p[1..17], p[18..18 + n], p[19 + n..19 + n + a], p[19 + n + a],
               p[21 + n + a..21 + n + a + m], p[21 + n + a + m..])
  }

  /** Exactly these are accepted, and read so. */
  lemma CcmOnWire(p: seq<byte>)
    ensures CcmOf(p).Some? <==> CcmLaidOut(p)
    ensures CcmLaidOut(p) ==> CcmOf(p) == Some(CcmRead(p))
  {
    hide CcmOf;
    if CcmOf(p).Some? {
      CcmAcceptsExactlyEncodings(p, CcmOf(p).value);
      CcmPlaces(CcmOf(p).value, p);
    }
    if CcmLaidOut(p) {
      CcmReads(p);
    }
  }

  lemma CcmReads(p: seq<byte>)
    requires CcmLaidOut(p)
    ensures CcmOf(p) == Some(CcmRead(p))
  {
    hide TakeCounted;
    var n: nat := p[17];
    var a: nat := p[18 + n];
    TakeCountedAt(p, 17);
    TakeCountedAt(p, 18 + n);
    assert p[19 + n + a..][1..] == p[20 + n + a..];
    TakeCountedAt(p, 20 + n + a);
  }

  lemma CcmPlaces(r: CcmRequest, p: seq<byte>)
    requires ValidCcm(r) && p == EncodeCcm(r)
    ensures var (n, a, m) := (|r.nonce|, |r.aad|, |r.msg|);
            && |p| == 21 + n + a + m + |r.tag|
            && p[0] == r.flags && p[1..17] == r.key && p[17] == n && p[18..18 + n] == r.nonce
            && p[18 + n] == a && p[19 + n..19 + n + a] == r.aad
            && p[19 + n + a] == r.tagLen && p[20 + n + a] == m
            && p[21 + n + a..21 + n + a + m] == r.msg && p[21 + n + a + m..] == r.tag
  {
    var (n, a, m) := (|r.nonce|, |r.aad|, |r.msg|);
    assert p == [r.flags] + r.key + [n] + r.nonce + [a] + r.aad + [r.tagLen] + [m] + r.msg + r.tag;
  }

  lemma CcmFieldsKeep(flags: byte, key: seq<byte>, s: seq<byte>)
    requires CcmFields(flags, key, s).Some?
    ensures CcmFields(flags, key, s).value.flags == flags && CcmFields(flags, key, s).value.key == key
  {
  }

  lemma TakeCountedAt(p: seq<byte>, pos: nat)
    requires pos < |p|
    ensures TakeCounted(p[pos..])
         == if |p| < pos + 1 + p[pos] as int then None
            else Some((p[pos + 1..pos + 1 + p[pos] as int], p[pos + 1 + p[pos] as int..]))
  {
    var n: nat := p[pos];
    if |p| >= pos + 1 + n {
      assert p[pos..][1..1 + n] == p[pos + 1..pos + 1 + n];
      assert p[pos..][1 + n..] == p[pos + 1 + n..];
    }
  }

  /** The parse, position by position; None is Invalid HCI Command Parameters. */
  method ParseCcm(p: seq<byte>) returns (r: Option<CcmRequest>)
    ensures r.Some? ==> ValidCcm(r.value) && p == EncodeCcm(r.value) && ReturnLen(r.value) <= RETURN_MAX
    ensures r.None? ==> forall q: CcmRequest :: ValidCcm(q) ==> p != EncodeCcm(q)
  {
    r := ParseCcmPositions(p);
    if r.Some? {
      CcmAcceptsExactlyEncodings(p, r.value);
    } else {
      forall q: CcmRequest | ValidCcm(q) ensures p != EncodeCcm(q) {
        CcmAcceptsExactlyEncodings(p, q);
      }
    }
  }

  method ParseCcmPositions(p: seq<byte>) returns (r: Option<CcmRequest>)
    ensures r == CcmOf(p)
  {
    hide TakeCounted;
    if |p| < 1 + KEY_LEN + 1 {
      assert |p| == 17 ==> p[17..] == [] && TakeCounted([]) == None by { NothingCounted(); }
      return None;
    }
    var flags := p[0];
    var pos := 1 + KEY_LEN;
    TakeCountedAt(p, pos);
    var nonceLen := p[pos];
    pos := pos + 1;
    if nonceLen < 7 || nonceLen > 13 || |p| < pos + nonceLen + 1 {
      assert |p| == pos + nonceLen ==> p[pos + nonceLen..] == [];
      NothingCounted();
      return None;
    }
    var nonce := p[pos..pos + nonceLen];
    pos := pos + nonceLen;
    TakeCountedAt(p, pos);
    var aadLen := p[pos];
    pos := pos + 1;
    if |p| < pos + aadLen + 2 {
      if |p| == pos + aadLen + 1 {
        assert p[pos + aadLen..][1..] == [];
        NothingCounted();
      }
      return None;
    }
    var aad := p[pos..pos + aadLen];
    pos := pos + aadLen;
    assert p[pos..][1..] == p[pos + 1..];
    TakeCountedAt(p, pos + 1);
    var tagLen, msgLen := p[pos], p[pos + 1];
    pos := pos + 2;
    if tagLen < 4 || tagLen > TAG_MAX || tagLen % 2 != 0 {
      return None;
    }
    var msgAt := pos;
    pos := pos + msgLen;
    var decrypt := Decrypts(flags);
    var tail := if decrypt then tagLen else 0;
    if |p| != pos + tail || msgLen + (if decrypt then 0 else tagLen) > RETURN_MAX {
      return None;
    }
    r := Some(CcmRequest(flags, p[1..1 + KEY_LEN], nonce, aad, tagLen, p[msgAt..pos], p[pos..]));
  }

  lemma NothingCounted()
    ensures TakeCounted([]) == None
  {
  }

  // -------------------------------------------------------------------------
  // HMAC-SHA-256.
  // -------------------------------------------------------------------------

  /** The two strings of an HMAC request, or None for Invalid HCI Command Parameters. */
  function HmacOf(p: seq<byte>): Option<(seq<byte>, seq<byte>)> {
    if |p| < 2 then None
    else
      var k: nat := p[0];
      if |p| < 2 + k then None
      else
        var m: nat := p[1 + k];
        if |p| != 2 + k + m then None else Some((p[1..1 + k], p[2 + k..]))
  }

  lemma HmacAcceptsExactlyEncodings(p: seq<byte>, key: seq<byte>, msg: seq<byte>)
    ensures HmacOf(p) == Some((key, msg))
       <==> |key| < 0x100 && |msg| < 0x100 && p == [|key|] + key + [|msg|] + msg
  {
    if HmacOf(p) == Some((key, msg)) {
      var k: nat := p[0];
      assert p == [p[0]] + p[1..1 + k] + [p[1 + k]] + p[2 + k..];
    }
    if |key| < 0x100 && |msg| < 0x100 && p == [|key|] + key + [|msg|] + msg {
      assert p[1..1 + |key|] == key && p[2 + |key|..] == msg;
    }
  }
}
