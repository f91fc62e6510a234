/**
 Startup synchronization: everything a host prints before its first HCI Reset is thrown
 away, octet by octet, until the frame 01 03 0C 00. One match index is enough to find
 its first occurrence in the stream, wherever the chunks were cut.
 */
module StartupSync {
  import opened Octets

  const RESET: seq<byte> := [0x01, 0x03, 0x0C, 0x00]

  function Advance(matched: nat, octet: byte): nat
    requires matched < 4
  {
    if octet == RESET[matched] then matched + 1
    else if octet == RESET[0] then 1 else 0
  }

  /** The stream ends with the first `k` octets of the frame. */
  predicate Ends(s: seq<byte>, k: nat)
    requires k <= 4
  {
    |s| >= k && s[|s| - k..] == RESET[..k]
  }

  ghost predicate NoReset(s: seq<byte>) {
    forall e :: 4 <= e <= |s| ==> !Ends(s[..e], 4)
  }

  /** The match index after a stream without the frame: its longest end that could still become one. */
  ghost predicate Longest(s: seq<byte>, k: nat) {
    k < 4 && Ends(s, k) && NoReset(s) && forall j :: k < j < 4 ==> !Ends(s, j)
  }

  /** The frame's first occurrence ends at the end of the stream. */
  ghost predicate FirstReset(s: seq<byte>) {
    |s| >= 4 && Ends(s, 4) && forall e :: 4 <= e < |s| ==> !Ends(s[..e], 4)
  }

  /** Before anything has been scanned the index is zero. */
  lemma NothingMatched()
    ensures Longest([], 0)
  {
  }

  lemma EndsSnoc(s: seq<byte>, b: byte, k: nat)
    requires k < 4
    ensures Ends(s + [b], k + 1) <==> Ends(s, k) && b == RESET[k]
  {
    var t := s + [b];
    if |s| >= k {
      assert t[|t| - (k + 1)..] == s[|s| - k..] + [b];
      assert RESET[..k + 1] == RESET[..k] + [RESET[k]];
      if Ends(t, k + 1) {
        assert s[|s| - k..] == t[|t| - (k + 1)..][..k] == RESET[..k];
        assert b == t[|t| - (k + 1)..][k];
      }
    }
  }

  /** The frame's second, third and fourth octets differ from its first: one restart point is enough. */
  lemma NoShorterEnd(s: seq<byte>, j: nat, k: nat)
    requires 0 < j < k < 4 && Ends(s, k)
    ensures !Ends(s, j)
  {
    assert s[|s| - j..][0] == s[|s| - j] == s[|s| - k..][k - j] == RESET[..k][k - j];
    assert s[|s| - j..][0] != RESET[..j][0];
  }

  lemma EndsAll(s: seq<byte>, b: byte)
    ensures Ends(s, 0) && Ends(s + [b], 0)
    ensures Ends(s + [b], 1) <==> b == RESET[0]
    ensures Ends(s + [b], 2) <==> Ends(s, 1) && b == RESET[1]
    ensures Ends(s + [b], 3) <==> Ends(s, 2) && b == RESET[2]
    ensures Ends(s + [b], 4) <==> Ends(s, 3) && b == RESET[3]
    ensures Ends(s, 3) ==> |s| >= 3
  {
    EndsSnoc(s, b, 0);
    EndsSnoc(s, b, 1);
    EndsSnoc(s, b, 2);
    EndsSnoc(s, b, 3);
  }

  /** Of the one-, two- and three-octet ends only the longest can hold. */
  lemma OnlyLongest(s: seq<byte>, k: nat)
    requires Longest(s, k)
    ensures forall j: nat :: 0 < j < 4 ==> (Ends(s, j) <==> j == k)
  {
    hide Ends;
    forall j: nat | 0 < j < k ensures !Ends(s, j) {
      NoShorterEnd(s, j, k);
    }
  }

  lemma NoResetBefore(s: seq<byte>, b: byte)
    requires NoReset(s)
    ensures forall e :: 4 <= e <= |s| ==> !Ends((s + [b])[..e], 4)
    ensures (s + [b])[..|s| + 1] == s + [b]
  {
    forall e | 4 <= e <= |s| ensures !Ends((s + [b])[..e], 4) {
      assert (s + [b])[..e] == s[..e];
    }
  }

  lemma NoResetSnoc(s: seq<byte>, b: byte)
    requires NoReset(s) && !Ends(s + [b], 4)
    ensures NoReset(s + [b])
  {
    hide Ends;
    NoResetBefore(s, b);
  }

  lemma ResetDone(s: seq<byte>, b: byte)
    requires NoReset(s) && Ends(s, 3) && b == RESET[3]
    ensures FirstReset(s + [b])
  {
    hide Ends;
    EndsAll(s, b);
    NoResetBefore(s, b);
  }

  lemma AdvanceLongest(s: seq<byte>, k: nat, b: byte)
    requires Longest(s, k) && Advance(k, b) < 4
    ensures Longest(s + [b], Advance(k, b))
  {
    hide Ends;
    hide NoReset;
    EndsAll(s, b);
    OnlyLongest(s, k);
    NoResetSnoc(s, b);
  }

  /** One octet keeps the index exact, or finishes the frame's first occurrence. */
  lemma AdvanceIsExact(s: seq<byte>, k: nat, b: byte)
    requires Longest(s, k)
    ensures Advance(k, b) == 4 ==> FirstReset(s + [b])
    ensures Advance(k, b) < 4 ==> Longest(s + [b], Advance(k, b))
  {
    hide Ends;
    hide NoReset;
    hide FirstReset;
    if Advance(k, b) == 4 {
      ResetDone(s, b);
    } else {
      AdvanceLongest(s, k, b);
    }
  }

  /**
   One chunk: `found` octets of it finish the frame, or none do and the whole chunk
   is noise. `before` is everything scanned earlier.
   */
  method Scan(matched: nat, chunk: seq<byte>, ghost before: seq<byte>) returns (now: nat, found: nat)
    requires Longest(before, matched)
    ensures found <= |chunk|
    ensures found == 0 ==> Longest(before + chunk, now)
    ensures found > 0 ==> now == 4 && FirstReset(before + chunk[..found])
  {
    now := matched;
    assert before + chunk[..0] == before;
    for i := 0 to |chunk|
      invariant Longest(before + chunk[..i], now)
    {
      AdvanceIsExact(before + chunk[..i], now, chunk[i]);
      assert before + chunk[..i] + [chunk[i]] == before + chunk[..i + 1];
      now := Advance(now, chunk[i]);
      if now == 4 {
        return now, i + 1;
      }
    }
    assert chunk[..|chunk|] == chunk;
    found := 0;
  }

  /** There is at most one place to synchronize: the first end is a function of the stream. */
  lemma NoEarlierReset(stream: seq<byte>, m: nat, n: nat)
    requires m < n <= |stream| && FirstReset(stream[..n])
    ensures !FirstReset(stream[..m])
  {
    assert stream[..n][..m] == stream[..m];
  }

  /** Any cutting of a stream scanned to no hit agrees with any other. */
  lemma NoHitBeforeFirst(stream: seq<byte>, n: nat, k: nat)
    requires n <= |stream| && Longest(stream[..n], k)
    ensures forall m :: m <= n && m >= 4 ==> !FirstReset(stream[..m])
  {
    forall m | 4 <= m <= n ensures !FirstReset(stream[..m]) {
      assert stream[..n][..m] == stream[..m];
    }
  }
}
