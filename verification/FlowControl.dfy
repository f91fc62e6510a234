/**
 Host-to-controller ACL flow control, Core Vol 4 Part E sections 4.1.1 and 7.7.19: the
 table of packets in flight per link with its running total, and the table of credits owed
 for packets that were refused. Both count in 16 bits, wrap included.
 */
module FlowControl {
  import opened Octets
  import H4

  type handle = x: int | 0 <= x < 0x1000

  datatype Entry = Entry(handle: handle, count: u16)

  const HANDLES := 18

  function HandleAt(lo: byte, hi: byte): handle {
    Le16(lo, hi) % 0x1000
  }

  function HandleOf(packet: seq<byte>): handle
    requires |packet| >= 2
  {
    HandleAt(packet[0], packet[1])
  }

  /** Twelve bits of the first two octets, the low octet first; the flags above them do not matter. */
  lemma HandleOnWire(lo: byte, hi: byte)
    ensures HandleAt(lo, hi) == lo + 0x100 * (hi % 0x10)
  {
    assert Le16(lo, hi) == lo + 0x100 * (hi % 0x10) + 0x1000 * (hi / 0x10);
  }

  lemma FlagsDoNotMatter(h: handle, flags: nat)
    requires flags < 0x10
    ensures HandleAt(Lo(h + 0x1000 * flags), Hi(h + 0x1000 * flags)) == h
  {
    var word: u16 := h + 0x1000 * flags;
    Le16RoundTrip(word, 0, 0);
  }

  function Up(n: u16): u16 {
    (n + 1) % 0x1_0000
  }

  /** Where a handle is in a table; its length when it is not there. */
  function Index(es: seq<Entry>, h: handle): (i: nat)
    ensures i <= |es|
    ensures i < |es| ==> es[i].handle == h
    ensures forall j :: 0 <= j < i ==> es[j].handle != h
  {
    if es == [] || es[0].handle == h then 0
    else
      var rest := Index(es[1..], h);
      assert forall j :: 1 <= j < rest + 1 ==> es[j] == es[1..][j - 1];
      rest + 1
  }

  predicate Tracks(es: seq<Entry>, h: handle) {
    Index(es, h) < |es|
  }

  function Count(es: seq<Entry>, h: handle): u16 {
    if Tracks(es, h) then es[Index(es, h)].count else 0
  }

  function Sum(es: seq<Entry>): nat {
    if es == [] then 0 else es[0].count + Sum(es[1..])
  }

  predicate Distinct(es: seq<Entry>) {
    forall i, j :: 0 <= i < j < |es| ==> es[i].handle != es[j].handle
  }

  function SetCount(es: seq<Entry>, i: nat, n: u16): seq<Entry>
    requires i < |es|
  {
    es[i := Entry(es[i].handle, n)]
  }

  function SwapRemove(es: seq<Entry>, i: nat): seq<Entry>
    requires i < |es|
  {
    es[i := es[|es| - 1]][..|es| - 1]
  }

  lemma IndexIs(es: seq<Entry>, i: nat)
    requires Distinct(es) && i < |es|
    ensures Index(es, es[i].handle) == i
  {
  }

  lemma IndexNone(es: seq<Entry>, h: handle)
    requires forall e :: e in es ==> e.handle != h
    ensures Index(es, h) == |es| && Count(es, h) == 0
  {
  }

  lemma {:induction false} SumSnoc(es: seq<Entry>, e: Entry)
    ensures Sum(es + [e]) == Sum(es) + e.count
  {
    if es == [] {
      assert es + [e] == [e];
    } else {
      assert (es + [e])[1..] == es[1..] + [e];
      SumSnoc(es[1..], e);
    }
  }

  lemma {:induction false} SumUpdate(es: seq<Entry>, i: nat, e: Entry)
    requires i < |es|
    ensures Sum(es[i := e]) == Sum(es) - es[i].count + e.count
    ensures es[i].count <= Sum(es)
  {
    if i == 0 {
      assert es[i := e][1..] == es[1..];
    } else {
      assert es[i := e][1..] == es[1..][i - 1 := e];
      SumUpdate(es[1..], i - 1, e);
    }
  }

  lemma SumSwapRemove(es: seq<Entry>, i: nat)
    requires i < |es|
    ensures Sum(SwapRemove(es, i)) == Sum(es) - es[i].count
    ensures es[i].count <= Sum(es)
  {
    hide Sum;
    var last := |es| - 1;
    SumUpdate(es, i, es[last]);
    SplitLast(es[i := es[last]]);
    SumSnoc(SwapRemove(es, i), es[last]);
  }

  lemma SplitLast(es: seq<Entry>)
    requires es != []
    ensures es == es[..|es| - 1] + [es[|es| - 1]]
  {
  }

  /** In a table of distinct handles, setting one count changes no other. */
  lemma SetCountCounts(es: seq<Entry>, i: nat, n: u16, g: handle)
    requires Distinct(es) && i < |es|
    ensures var out := SetCount(es, i, n);
            && Distinct(out)
            && Tracks(out, g) == Tracks(es, g)
            && Count(out, g) == if g == es[i].handle then n else Count(es, g)
  {
    var out := SetCount(es, i, n);
    assert forall j :: 0 <= j < |es| ==> out[j].handle == es[j].handle;
    var k := Index(es, g);
    if k < |es| {
      IndexIs(out, k);
      IndexIs(es, i);
    } else {
      assert forall j :: 0 <= j < |es| ==> es[j].handle != g;
      IndexNone(out, g);
    }
  }

  lemma SnocCounts(es: seq<Entry>, e: Entry, g: handle)
    requires Distinct(es) && !Tracks(es, e.handle)
    ensures var out := es + [e];
            && Distinct(out)
            && (Tracks(out, g) <==> Tracks(es, g) || g == e.handle)
            && Count(out, g) == if g == e.handle then e.count else Count(es, g)
  {
    var out := es + [e];
    var k := Index(es, g);
    if k < |es| {
      IndexIs(out, k);
    } else if g == e.handle {
      IndexIs(out, |es|);
    } else {
      assert forall j :: 0 <= j < |out| ==> out[j].handle != g;
      IndexNone(out, g);
    }
  }

  /** Moving the last entry into the gap forgets exactly one handle. */
  lemma SwapRemoveCounts(es: seq<Entry>, i: nat, g: handle)
    requires Distinct(es) && i < |es|
    ensures var out := SwapRemove(es, i);
            && Distinct(out)
            && (Tracks(out, g) <==> Tracks(es, g) && g != es[i].handle)
            && Count(out, g) == if g == es[i].handle then 0 else Count(es, g)
  {
    var out := SwapRemove(es, i);
    var last := |es| - 1;
    assert forall j :: 0 <= j < last ==> out[j] == if j == i then es[last] else es[j];
    var k := Index(es, g);
    if g == es[i].handle || k == |es| {
      assert forall j :: 0 <= j < |out| ==> out[j].handle != g;
      IndexNone(out, g);
    } else {
      var at := if k == last then i else k;
      assert out[at] == es[k];
      IndexIs(out, at);
    }
  }

  // ---- Packets in flight ----

  datatype Acl = Acl(entries: seq<Entry>, total: u16, limit: u16, overflow: nat)

  /** The accounting invariant: handles distinct, table bounded, the total is the sum of the links. */
  ghost predicate Tidy(a: Acl) {
    Distinct(a.entries) && |a.entries| <= HANDLES && a.total == Sum(a.entries)
  }

  /** A link's slot, made when there is room for it. */
  function Opened(a: Acl, h: handle): Acl {
    if Tracks(a.entries, h) then a
    else if |a.entries| >= HANDLES then a.(overflow := a.overflow + 1)
    else a.(entries := a.entries + [Entry(h, 0)])
  }

  function AtLimit(a: Acl, h: handle): (bool, Acl) {
    if a.limit == 0 then (false, a)
    else
      var o := Opened(a, h);
      (Tracks(o.entries, h) && o.total >= o.limit, o)
  }

  function Put(a: Acl, h: handle): Acl {
    var o := Opened(a, h);
    var i := Index(o.entries, h);
    if i < |o.entries| then
      o.(entries := SetCount(o.entries, i, Up(o.entries[i].count)), total := Up(o.total))
    else o
  }

  function Forget(a: Acl, h: handle): Acl {
    var i := Index(a.entries, h);
    if i == |a.entries| then a
    else
      var n := a.entries[i].count;
      a.(entries := SwapRemove(a.entries, i), total := if a.total > n then a.total - n else 0)
  }

  function Min(m: nat, n: nat): nat {
    if m < n then m else n
  }

  function Free(a: Acl, p: Entry): Acl {
    var i := Index(a.entries, p.handle);
    if i == |a.entries| then a
    else
      var freed := Min(a.entries[i].count, p.count);
      a.(entries := SetCount(a.entries, i, a.entries[i].count - freed),
         total := (a.total - freed) % 0x1_0000)
  }

  function FreeAll(a: Acl, ps: seq<Entry>): Acl
    decreases |ps|
  {
    if ps == [] then a else FreeAll(Free(a, ps[0]), ps[1..])
  }

  /** The entries of a Number Of Completed Packets event from the `i`-th on, as far as the event goes. */
  function PairsFrom(e: seq<byte>, i: nat): seq<Entry>
    requires |e| >= 3
    decreases |e| - 4 * i
  {
    var off := 3 + 4 * i;
    var declared: nat := e[2];
    if i >= declared || off + 4 > |e| then []
    else [Entry(HandleAt(e[off], e[off + 1]), Le16(e[off + 2], e[off + 3]))] + PairsFrom(e, i + 1)
  }

  const COMPLETED_PACKETS: byte := 0x13
  const DISCONNECTION_COMPLETE: byte := 0x05

  function Track(a: Acl, e: seq<byte>): Acl {
    if |e| >= 3 && e[0] == COMPLETED_PACKETS then FreeAll(a, PairsFrom(e, 0))
    else if |e| >= 5 && e[0] == DISCONNECTION_COMPLETE && e[2] == 0 then Forget(a, HandleAt(e[3], e[4]))
    else a
  }

  lemma OpenedIsTidy(a: Acl, h: handle, g: handle)
    requires Tidy(a)
    ensures Tidy(Opened(a, h)) && Opened(a, h).total == a.total
    ensures Count(Opened(a, h).entries, g) == Count(a.entries, g)
    ensures Tracks(Opened(a, h).entries, h) <==> Tracks(a.entries, h) || |a.entries| < HANDLES
    ensures Tracks(Opened(a, h).entries, g) <==> Tracks(a.entries, g) || (g == h && |a.entries| < HANDLES)
  {
    if !Tracks(a.entries, h) && |a.entries| < HANDLES {
      SnocCounts(a.entries, Entry(h, 0), g);
      SnocCounts(a.entries, Entry(h, 0), h);
      SumSnoc(a.entries, Entry(h, 0));
    }
  }

  /** An accepted packet on a link there is room to track. */
  predicate Counted(a: Acl, h: handle) {
    Tracks(a.entries, h) || |a.entries| < HANDLES
  }

  lemma PutCounts(a: Acl, h: handle, g: handle)
    requires Tidy(a)
    ensures Count(Put(a, h).entries, g)
         == if g == h && Counted(a, h) then Up(Count(a.entries, g)) else Count(a.entries, g)
    ensures Distinct(Put(a, h).entries) && |Put(a, h).entries| <= HANDLES && Put(a, h).limit == a.limit
    ensures Put(a, h).total == if Counted(a, h) then Up(a.total) else a.total
    ensures Counted(a, h) ==> Sum(Put(a, h).entries) == Sum(a.entries) - Count(a.entries, h) + Up(Count(a.entries, h))
    ensures !Counted(a, h) ==> Put(a, h).entries == a.entries
  {
    OpenedIsTidy(a, h, g);
    OpenedIsTidy(a, h, h);
    var o := Opened(a, h);
    var i := Index(o.entries, h);
    if i < |o.entries| {
      SetCountCounts(o.entries, i, Up(o.entries[i].count), g);
      SumUpdate(o.entries, i, Entry(h, Up(o.entries[i].count)));
    }
  }

  /**
   A put keeps the total equal to the sum of the links unless the 16-bit total wraps
   under counts that do not: exactly then the invariant is lost.
   */
  lemma PutIsTidyIff(a: Acl, h: handle)
    requires Tidy(a)
    ensures Tidy(Put(a, h)) <==> !(Counted(a, h) && a.total == 0xFFFF && Count(a.entries, h) < 0xFFFF)
  {
    PutCounts(a, h, h);
    if Tracks(a.entries, h) {
      var i := Index(a.entries, h);
      SumUpdate(a.entries, i, a.entries[i]);
    }
  }

  lemma ForgetCounts(a: Acl, h: handle, g: handle)
    requires Tidy(a)
    ensures Tidy(Forget(a, h)) && Forget(a, h).limit == a.limit
    ensures Forget(a, h).total == a.total - Count(a.entries, h)
    ensures Count(Forget(a, h).entries, g) == if g == h then 0 else Count(a.entries, g)
    ensures Tracks(Forget(a, h).entries, g) <==> Tracks(a.entries, g) && g != h
  {
    var i := Index(a.entries, h);
    if i < |a.entries| {
      SwapRemoveCounts(a.entries, i, g);
      SumSwapRemove(a.entries, i);
    }
  }

  lemma FreeCounts(a: Acl, p: Entry, g: handle)
    requires Tidy(a)
    ensures Tidy(Free(a, p)) && Free(a, p).limit == a.limit
    ensures Free(a, p).total == a.total - Min(Count(a.entries, p.handle), p.count)
    ensures Count(Free(a, p).entries, g)
         == if g == p.handle then Count(a.entries, g) - Min(Count(a.entries, g), p.count) else Count(a.entries, g)
  {
    var i := Index(a.entries, p.handle);
    if i < |a.entries| {
      var n: u16 := a.entries[i].count - Min(a.entries[i].count, p.count);
      SetCountCounts(a.entries, i, n, g);
      SumUpdate(a.entries, i, Entry(p.handle, n));
    }
  }

  /** All a list of entries claims for one link, duplicates added up. */
  function Claimed(ps: seq<Entry>, h: handle): nat {
    if ps == [] then 0 else (if ps[0].handle == h then ps[0].count else 0) + Claimed(ps[1..], h)
  }

  /**
   Over-claiming and duplicate entries: each link loses what the event claims for it in
   all, never more than it had; no other link is touched.
   */
  lemma {:induction false} FreeAllCounts(a: Acl, ps: seq<Entry>, g: handle)
    requires Tidy(a)
    ensures Tidy(FreeAll(a, ps)) && FreeAll(a, ps).limit == a.limit
    ensures FreeAll(a, ps).total <= a.total
    ensures Count(FreeAll(a, ps).entries, g) == Count(a.entries, g) - Min(Count(a.entries, g), Claimed(ps, g))
    decreases |ps|
  {
    hide Tidy;
    hide Count;
    if ps != [] {
      FreeCounts(a, ps[0], g);
      FreeAllCounts(Free(a, ps[0]), ps[1..], g);
    }
  }

  /** No event from the controller can break the accounting or raise the total. */
  lemma TrackIsTidy(a: Acl, e: seq<byte>)
    requires Tidy(a)
    ensures Tidy(Track(a, e)) && Track(a, e).total <= a.total && Track(a, e).limit == a.limit
  {
    hide Tidy;
    hide FreeAll;
    hide Forget;
    if |e| >= 3 && e[0] == COMPLETED_PACKETS {
      FreeAllCounts(a, PairsFrom(e, 0), 0);
    } else if |e| >= 5 && e[0] == DISCONNECTION_COMPLETE && e[2] == 0 {
      ForgetCounts(a, HandleAt(e[3], e[4]), 0);
    }
  }

  function ResetAcl(a: Acl): Acl {
    a.(entries := [], total := 0)
  }

  /** The guard, when it is compiled in. */
  function Guarded(a: Acl, h: handle, enforce: bool): (bool, Acl) {
    if enforce then AtLimit(a, h) else (false, a)
  }

  /** One host ACL packet: refused by the guard, or offered to the controller and counted if `taken`. */
  function Offer(a: Acl, h: handle, enforce: bool, taken: bool): Acl {
    var (over, o) := Guarded(a, h, enforce);
    if over || !taken then o else Put(o, h)
  }

  /** With enforcement and a known limit nothing wraps, and the host never holds more than it was granted. */
  lemma OfferKeepsLimit(a: Acl, h: handle, taken: bool)
    requires Tidy(a) && a.limit > 0
    ensures var b := Offer(a, h, true, taken);
            && Tidy(b) && b.limit == a.limit
            && (a.total <= a.limit ==> b.total <= b.limit)
            && b.total <= (if a.total < a.limit then a.limit else a.total)
    ensures Guarded(a, h, true).0 <==> Counted(a, h) && a.total >= a.limit
  {
    OpenedIsTidy(a, h, h);
    var o := Opened(a, h);
    if taken && !(Tracks(o.entries, h) && o.total >= o.limit) {
      PutIsTidyIff(o, h);
      PutCounts(o, h, h);
    }
  }

  datatype AclOp =
    | Offered(handle: handle, taken: bool)
    | FromController(event: seq<byte>)
    | LimitSet(limit: u16)
    | HciReset

  function AclStep(a: Acl, op: AclOp, enforce: bool): Acl {
    match op
    case Offered(h, taken) => Offer(a, h, enforce, taken)
    case FromController(e) => Track(a, e)
    case LimitSet(n) => a.(limit := n)
    case HciReset => ResetAcl(a)
  }

  function AclRun(a: Acl, ops: seq<AclOp>, enforce: bool): Acl
    decreases |ops|
  {
    if ops == [] then a else AclRun(AclStep(a, ops[0], enforce), ops[1..], enforce)
  }

  /** A packet counted at a full 16-bit total on a link that is not full itself: only this breaks the accounting. */
  predicate Wraps(a: Acl, op: AclOp, enforce: bool) {
    && op.Offered? && op.taken && Counted(a, op.handle) && !(enforce && a.limit > 0)
    && a.total == 0xFFFF && Count(a.entries, op.handle) < 0xFFFF
  }

  predicate NoWrap(a: Acl, ops: seq<AclOp>, enforce: bool)
    decreases |ops|
  {
    ops != [] ==> !Wraps(a, ops[0], enforce) && NoWrap(AclStep(a, ops[0], enforce), ops[1..], enforce)
  }

  /** One step keeps the accounting exactly when it does not wrap. */
  lemma StepIsTidyIff(a: Acl, op: AclOp, enforce: bool)
    requires Tidy(a)
    ensures Tidy(AclStep(a, op, enforce)) <==> !Wraps(a, op, enforce)
  {
    hide Track;
    hide Put;
    match op
    case Offered(h, taken) =>
      PutIsTidyIff(a, h);
      if enforce && a.limit > 0 {
        OfferKeepsLimit(a, h, taken);
      }
    case FromController(e) => TrackIsTidy(a, e);
    case LimitSet(_) =>
    case HciReset =>
  }

  ghost predicate AlwaysTidy(a: Acl, ops: seq<AclOp>, enforce: bool)
    decreases |ops|
  {
    Tidy(a) && (ops != [] ==> AlwaysTidy(AclStep(a, ops[0], enforce), ops[1..], enforce))
  }

  /**
   Over any run, guarded or not, whatever limits are set: the total is the sum of the links
   at every step exactly when no step wraps.
   */
  lemma {:induction false} AccountingHolds(a: Acl, ops: seq<AclOp>, enforce: bool)
    requires Tidy(a)
    ensures AlwaysTidy(a, ops, enforce) <==> NoWrap(a, ops, enforce)
    ensures NoWrap(a, ops, enforce) ==> Tidy(AclRun(a, ops, enforce))
    decreases |ops|
  {
    hide Tidy;
    hide AclStep;
    hide Wraps;
    if ops != [] {
      StepIsTidyIff(a, ops[0], enforce);
      if !Wraps(a, ops[0], enforce) {
        AccountingHolds(AclStep(a, ops[0], enforce), ops[1..], enforce);
      }
    }
  }

  const EMPTY := Acl([], 0, 0, 0)

  function Repeated(op: AclOp, n: nat): seq<AclOp> {
    if n == 0 then [] else [op] + Repeated(op, n - 1)
  }

  /** One link, `n` packets in flight. */
  function OneLink(n: u16): Acl {
    Acl([Entry(0, n)], n, 0, 0)
  }

  lemma OneMore(n: u16)
    requires n < 0xFFFF
    ensures AclStep(OneLink(n), Offered(0, true), false) == OneLink(n + 1)
    ensures AclStep(EMPTY, Offered(0, true), false) == OneLink(1)
  {
    assert Index(OneLink(n).entries, 0) == 0;
    assert [] + [Entry(0, 0)] == [Entry(0, 0)];
  }

  lemma {:induction false} FillsUp(m: u16, n: nat)
    requires m + n <= 0xFFFF
    ensures AclRun(OneLink(m), Repeated(Offered(0, true), n), false) == OneLink(m + n)
    decreases n
  {
    hide AclStep;
    if n > 0 {
      OneMore(m);
      var rest := Repeated(Offered(0, true), n - 1);
      assert ([Offered(0, true)] + rest)[1..] == rest;
      FillsUp(m + 1, n - 1);
    }
  }

  /** The accounting does break: 65535 packets in flight on one link, then one on another. */
  lemma WrapBreaksAccounting()
    ensures var ops := Repeated(Offered(0, true), 0xFFFF);
            && AclRun(EMPTY, ops, false) == OneLink(0xFFFF)
            && Tidy(OneLink(0xFFFF))
            && !Tidy(AclStep(OneLink(0xFFFF), Offered(1, true), false))
            && AclStep(OneLink(0xFFFF), Offered(1, true), false).total == 0
  {
    hide AclStep;
    var rest := Repeated(Offered(0, true), 0xFFFE);
    OneMore(1);
    FillsUp(1, 0xFFFE);
    assert ([Offered(0, true)] + rest)[1..] == rest;
    OneLinkIsTidy(0xFFFF);
    NextWraps();
  }

  lemma OneLinkIsTidy(n: u16)
    ensures Tidy(OneLink(n))
  {
    assert Sum(OneLink(n).entries[1..]) == 0;
  }

  lemma NextWraps()
    ensures !Tidy(AclStep(OneLink(0xFFFF), Offered(1, true), false))
    ensures AclStep(OneLink(0xFFFF), Offered(1, true), false).total == 0
  {
    OneLinkIsTidy(0xFFFF);
    StepIsTidyIff(OneLink(0xFFFF), Offered(1, true), false);
    PutCounts(OneLink(0xFFFF), 1, 1);
  }

  lemma EnforcedStep(a: Acl, op: AclOp)
    requires !op.LimitSet? && Tidy(a) && a.limit > 0 && a.total <= a.limit
    ensures var b := AclStep(a, op, true); Tidy(b) && b.limit == a.limit && b.total <= b.limit
  {
    hide Track;
    hide Offer;
    hide Tidy;
    match op
    case Offered(h, taken) => OfferKeepsLimit(a, h, taken);
    case FromController(e) => TrackIsTidy(a, e);
    case HciReset => EmptyIsTidy(a);
  }

  lemma EmptyIsTidy(a: Acl)
    ensures Tidy(ResetAcl(a))
  {
  }

  /** The enforced limit, over every run of packets, events and resets: no hypothesis on wrapping is needed. */
  lemma {:induction false} LimitHolds(a: Acl, ops: seq<AclOp>)
    requires forall op :: op in ops ==> !op.LimitSet?
    requires Tidy(a) && a.limit > 0 && a.total <= a.limit
    ensures var b := AclRun(a, ops, true); Tidy(b) && b.limit == a.limit && b.total <= b.limit
    decreases |ops|
  {
    hide Tidy;
    hide AclStep;
    if ops != [] {
      EnforcedStep(a, ops[0]);
      LimitHolds(AclStep(a, ops[0], true), ops[1..]);
    }
  }

  // ---- What the packets and events on the wire do ----

  /** One host packet: refused exactly at an enforced limit, and otherwise counted once if it is taken. */
  lemma OfferCounts(a: Acl, h: handle, enforce: bool, taken: bool, g: handle)
    requires Tidy(a)
    ensures var over := enforce && a.limit > 0 && a.total >= a.limit && (Tracks(a.entries, h) || |a.entries| < HANDLES);
            && Guarded(a, h, enforce).0 == over
            && Count(Offer(a, h, enforce, taken).entries, g)
               == if g == h && taken && !over && (Tracks(a.entries, h) || |a.entries| < HANDLES)
                  then Up(Count(a.entries, g)) else Count(a.entries, g)
    ensures Offer(a, h, enforce, taken).limit == a.limit
  {
    OpenedIsTidy(a, h, g);
    OpenedIsTidy(a, h, h);
    PutCounts(a, h, g);
    PutCounts(Opened(a, h), h, g);
    PutCounts(Opened(a, h), h, h);
  }

  /** How many entries of a Number Of Completed Packets event are there: as many as it says, as far as it goes. */
  function Whole(e: seq<byte>): nat
    requires |e| >= 3
  {
    var n: nat := (|e| - 3) / 4;
    if n < e[2] then n else e[2]
  }

  /** The entries by their places: a handle and a count, each low octet first, four octets apart from the fourth on. */
  lemma {:induction false} PairsOnWire(e: seq<byte>, i: nat)
    requires |e| >= 3 && i <= Whole(e)
    ensures |PairsFrom(e, i)| == Whole(e) - i
    ensures forall k :: i <= k < Whole(e) ==>
              var (h, n) := (PairsFrom(e, i)[k - i].handle, PairsFrom(e, i)[k - i].count);
              && h == (e[3 + 4 * k] as int) + 0x100 * (e[4 + 4 * k] as int % 0x10)
              && n == (e[5 + 4 * k] as int) + 0x100 * (e[6 + 4 * k] as int)
    decreases Whole(e) - i
  {
    if i < Whole(e) {
      PairsOnWire(e, i + 1);
      var off := 3 + 4 * i;
      HandleOnWire(e[off], e[off + 1]);
      var first := Entry(HandleAt(e[off], e[off + 1]), Le16(e[off + 2], e[off + 3]));
      assert PairsFrom(e, i) == [first] + PairsFrom(e, i + 1);
    }
  }

  /**
   What an event does to one link. Number Of Completed Packets takes off what its entries
   claim for it, never more than there is; a Disconnection Complete of success forgets it;
   a failed one, and any other event, changes nothing.
   */
  lemma TrackOnWire(a: Acl, e: seq<byte>, g: handle)
    requires Tidy(a)
    ensures |e| >= 3 && e[0] == 0x13 ==>
              Count(Track(a, e).entries, g)
              == Count(a.entries, g) - Min(Count(a.entries, g), Claimed(PairsFrom(e, 0), g))
    ensures |e| >= 5 && e[0] == 0x05 && e[2] == 0 ==>
              Count(Track(a, e).entries, g)
              == if g == (e[3] as int) + 0x100 * (e[4] as int % 0x10) then 0 else Count(a.entries, g)
    ensures |e| < 3 || (e[0] != 0x13 && (|e| < 5 || e[0] != 0x05 || e[2] != 0)) ==> Track(a, e) == a
  {
    hide FreeAll;
    hide Forget;
    hide PairsFrom;
    hide Count;
    if |e| >= 3 && e[0] == 0x13 {
      FreeAllCounts(a, PairsFrom(e, 0), g);
    } else if |e| >= 5 && e[0] == 0x05 && e[2] == 0 {
      ForgetCounts(a, HandleAt(e[3], e[4]), g);
      HandleOnWire(e[3], e[4]);
    }
  }

  /** A reset leaves no packet in flight on any link, and keeps the limit. */
  lemma ResetCounts(a: Acl, g: handle)
    ensures Count(ResetAcl(a).entries, g) == 0 && ResetAcl(a).total == 0 && ResetAcl(a).limit == a.limit
  {
  }

  // ---- Credits owed ----

  datatype Credits = Credits(entries: seq<Entry>, overflow: nat)

  ghost predicate ValidCredits(c: Credits) {
    Distinct(c.entries) && |c.entries| <= HANDLES
  }

  function Owe(c: Credits, h: handle): Credits {
    var i := Index(c.entries, h);
    if i < |c.entries| then c.(entries := SetCount(c.entries, i, Up(c.entries[i].count)))
    else if |c.entries| >= HANDLES then c.(overflow := c.overflow + 1)
    else c.(entries := c.entries + [Entry(h, 1)])
  }

  function EntryOctets(es: seq<Entry>): seq<byte> {
    if es == [] then []
    else [Lo(es[0].handle), Hi(es[0].handle), Lo(es[0].count), Hi(es[0].count)] + EntryOctets(es[1..])
  }

  function CreditEvent(es: seq<Entry>): seq<byte>
    requires |es| <= HANDLES
  {
    [COMPLETED_PACKETS, 1 + 4 * |es|, |es|] + EntryOctets(es)
  }

  /** One poll of the credit table: an event for everything owed, or nothing. */
  function Emit(c: Credits, cap: nat): (Option<seq<byte>>, Credits)
    requires |c.entries| <= HANDLES
  {
    if c.entries == [] || 3 + 4 * |c.entries| > cap then (None, c)
    else (Some(CreditEvent(c.entries)), c.(entries := []))
  }

  lemma {:induction false} EntryOctetsLen(es: seq<Entry>)
    ensures |EntryOctets(es)| == 4 * |es|
  {
    if es != [] {
      EntryOctetsLen(es[1..]);
    }
  }

  /** The `i`-th four octets of an event are the `i`-th entry. */
  lemma {:induction false} EntryOctetsAt(es: seq<Entry>, i: nat)
    requires i < |es|
    ensures |EntryOctets(es)| == 4 * |es|
    ensures var o := EntryOctets(es);
            && o[4 * i] == Lo(es[i].handle) && o[4 * i + 1] == Hi(es[i].handle)
            && o[4 * i + 2] == Lo(es[i].count) && o[4 * i + 3] == Hi(es[i].count)
  {
    EntryOctetsLen(es);
    if i > 0 {
      EntryOctetsAt(es[1..], i - 1);
    }
  }

  lemma {:induction false} PairsOfCreditEvent(es: seq<Entry>, i: nat)
    requires i <= |es| <= HANDLES
    ensures PairsFrom(CreditEvent(es), i) == es[i..]
    decreases |es| - i
  {
    EntryOctetsLen(es);
    var e := CreditEvent(es);
    if i < |es| {
      EntryOctetsAt(es, i);
      PairsOfCreditEvent(es, i + 1);
      Le16RoundTrip(es[i].handle, 0, 0);
      Le16RoundTrip(es[i].count, 0, 0);
      assert e[3..] == EntryOctets(es);
      assert e[3 + 4 * i] == e[3..][4 * i] && e[3 + 4 * i + 1] == e[3..][4 * i + 1];
      assert e[3 + 4 * i + 2] == e[3..][4 * i + 2] && e[3 + 4 * i + 3] == e[3..][4 * i + 3];
      assert es[i..] == [es[i]] + es[i + 1..];
    }
  }

  /**
   What goes out for the host decodes, by the loop that reads the controller's own
   events, to exactly the table; and the H:4 parser agrees about its length.
   */
  lemma CreditEventRoundTrip(es: seq<Entry>)
    requires |es| <= HANDLES
    ensures PairsFrom(CreditEvent(es), 0) == es
    ensures H4.SelfDelimiting(H4.Packet(H4.Event, CreditEvent(es)))
    ensures |CreditEvent(es)| == 3 + 4 * |es| <= 75
  {
    PairsOfCreditEvent(es, 0);
    assert es[0..] == es;
    EntryOctetsLen(es);
  }

  /** One event for everything owed, when it fits; the table empties with it. Otherwise it stays. */
  lemma EmitOnWire(c: Credits, cap: nat)
    requires |c.entries| <= HANDLES
    ensures var (n, (e, d)) := (|c.entries|, Emit(c, cap));
            if n > 0 && 3 + 4 * n <= cap then
              && e.Some? && |e.value| == 3 + 4 * n && e.value[..3] == [0x13, 1 + 4 * n, n]
              && d.entries == [] && d.overflow == c.overflow
            else e == None && d == c
    ensures forall k :: 0 <= k < |c.entries| && Emit(c, cap).0.Some? ==>
              var (e, entry) := (Emit(c, cap).0.value, c.entries[k]);
              && (e[3 + 4 * k] as int) + 0x100 * (e[4 + 4 * k] as int) == entry.handle
              && (e[5 + 4 * k] as int) + 0x100 * (e[6 + 4 * k] as int) == entry.count
  {
    EntryOctetsLen(c.entries);
    forall k | 0 <= k < |c.entries| && Emit(c, cap).0.Some?
      ensures var (e, entry) := (Emit(c, cap).0.value, c.entries[k]);
              && (e[3 + 4 * k] as int) + 0x100 * (e[4 + 4 * k] as int) == entry.handle
              && (e[5 + 4 * k] as int) + 0x100 * (e[6 + 4 * k] as int) == entry.count
    {
      EntryOctetsAt(c.entries, k);
      var e := Emit(c, cap).0.value;
      assert e[3..] == EntryOctets(c.entries);
      assert e[3 + 4 * k] == e[3..][4 * k] && e[4 + 4 * k] == e[3..][4 * k + 1];
      assert e[5 + 4 * k] == e[3..][4 * k + 2] && e[6 + 4 * k] == e[3..][4 * k + 3];
    }
  }

  /** What has happened to one link's refused packets since the last reset. */
  datatype Ledger = Ledger(refused: nat, sent: nat, lost: nat, wraps: nat)

  lemma OweCounts(c: Credits, h: handle, g: handle)
    requires ValidCredits(c)
    ensures ValidCredits(Owe(c, h))
    ensures c.overflow <= Owe(c, h).overflow <= c.overflow + 1
    ensures g != h ==> Count(Owe(c, h).entries, g) == Count(c.entries, g)
    ensures Count(Owe(c, h).entries, h)
         == if Owe(c, h).overflow > c.overflow then Count(c.entries, h) else Up(Count(c.entries, h))
  {
    var i := Index(c.entries, h);
    if i < |c.entries| {
      SetCountCounts(c.entries, i, Up(c.entries[i].count), g);
      SetCountCounts(c.entries, i, Up(c.entries[i].count), h);
    } else if |c.entries| < HANDLES {
      SnocCounts(c.entries, Entry(h, 1), g);
      SnocCounts(c.entries, Entry(h, 1), h);
    }
  }

  /** One refused packet adds one to the table's sum, or one to the overflow, less a turn of a full count. */
  lemma OweSum(c: Credits, h: handle)
    requires ValidCredits(c)
    ensures var d := Owe(c, h);
            && c.overflow <= d.overflow
            && Sum(d.entries) + (d.overflow - c.overflow) + 0x1_0000 * (if Count(c.entries, h) == 0xFFFF then 1 else 0)
               == Sum(c.entries) + 1
  {
    var i := Index(c.entries, h);
    if i < |c.entries| {
      SumUpdate(c.entries, i, Entry(h, Up(c.entries[i].count)));
    } else if |c.entries| < HANDLES {
      SumSnoc(c.entries, Entry(h, 1));
    }
  }

  lemma {:induction false} ClaimedNone(es: seq<Entry>, g: handle)
    requires forall e :: e in es ==> e.handle != g
    ensures Claimed(es, g) == 0
  {
    if es != [] {
      ClaimedNone(es[1..], g);
    }
  }

  /** Distinct entries claim for a link exactly its count. */
  lemma {:induction false} ClaimedIsCount(es: seq<Entry>, g: handle)
    requires Distinct(es)
    ensures Claimed(es, g) == Count(es, g)
  {
    if es != [] {
      assert forall i, j :: 0 <= i < j < |es[1..]| ==> es[1..][i] == es[i + 1] && es[1..][j] == es[j + 1];
      if es[0].handle == g {
        ClaimedNone(es[1..], g);
      } else {
        ClaimedIsCount(es[1..], g);
        assert Index(es, g) == Index(es[1..], g) + 1;
      }
    }
  }

  /** Every refused packet of a link is in exactly one place. */
  ghost predicate Conserved(l: Ledger, c: Credits, g: handle) {
    l.refused == l.sent + Count(c.entries, g) + l.lost + 0x1_0000 * l.wraps
  }

  const NOTHING_OWED := Credits([], 0)
}
