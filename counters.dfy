/**
 * The two counters the iSCSI target hands out numbers from: the
 * connection's StatSN (section 3.2.2.2 of RFC 3720), which every response
 * that acknowledges a command takes and advances, and the session's Target
 * Transfer Tag, which skips the reserved value 0xffffffff (section 10.8.4
 * of RFC 3720).
 */
module Counters {
  import opened Common
  import opened IscsiTypes

  /** The PDUs the target builds, as far as StatSN is concerned. */
  datatype PduKind =
    | ScsiRsp(recovery: bool)  // iscsit_send_status; a recovery resend when i_state != ISTATE_SEND_STATUS
    | LogoutRsp                // iscsit_send_logout_response
    | NopInRsp                 // iscsit_send_nopin_response
    | TaskMgtRsp               // iscsit_send_task_mgt_rsp
    | TextRsp                  // iscsit_send_text_rsp
    | RejectPdu                // iscsit_send_reject
    | AsyncMsg                 // iscsit_send_async_msg
    | ConnDropAsync            // iscsit_send_conn_drop_async_message
    | R2tPdu                   // iscsit_send_r2t
    | UnsolicitedNopIn         // iscsit_send_unsolicited_nopin

  /** Whether the builder takes a new StatSN (`conn->stat_sn++`). */
  predicate TakesStatSn(k: PduKind) {
    match k
    case ScsiRsp(recovery) => !recovery
    case R2tPdu => false
    case UnsolicitedNopIn => false
    case _ => true
  }

  /**
   * The StatSN a builder puts in its PDU (and in `cmd->stat_sn` where it
   * records one), and the connection's StatSN afterwards, given the
   * connection's StatSN `connSn` and the command's `cmdSn`. A recovery
   * SCSI Response resends the StatSN the command already has; every other
   * PDU carries the connection's current StatSN, and only those that take
   * it advance the counter.
   */
  function StatSnStep(connSn: u32, cmdSn: u32, k: PduKind): (r: (u32, u32))
    ensures TakesStatSn(k) ==> r == (connSn, Inc32(connSn))
    ensures !TakesStatSn(k) ==> r.1 == connSn
    ensures !TakesStatSn(k) ==> r.0 == (if k.ScsiRsp? then cmdSn else connSn)
  {
    if k == ScsiRsp(true) then (cmdSn, connSn)
    else if TakesStatSn(k) then (connSn, Inc32(connSn))
    else (connSn, connSn)
  }

  /**
   * The StatSNs taken by the PDUs `ks` built one after the other on a
   * connection whose StatSN starts at `sn`, and the StatSN left behind.
   */
  function StatSnRun(sn: u32, ks: seq<PduKind>): (r: (seq<u32>, u32))
    ensures |r.0| <= |ks|
    decreases |ks|
  {
    if |ks| == 0 then ([], sn)
    else
      var step := StatSnStep(sn, 0, ks[0]);
      var rest := StatSnRun(step.1, ks[1..]);
      if TakesStatSn(ks[0]) then ([step.0] + rest.0, rest.1) else rest
  }

  /**
   * The responses that take a StatSN get consecutive numbers from `sn` on,
   * modulo 2^32, and the connection's StatSN ends one past the last.
   */
  lemma {:induction false} StatSnRunConsecutive(sn: u32, ks: seq<PduKind>)
    ensures var r := StatSnRun(sn, ks);
      && (forall i :: 0 <= i < |r.0| ==> r.0[i] == (sn + i) % U32_MOD)
      && r.1 == (sn + |r.0|) % U32_MOD
    decreases |ks|
  {
    if |ks| > 0 {
      var step := StatSnStep(sn, 0, ks[0]);
      StatSnRunConsecutive(step.1, ks[1..]);
      var rest := StatSnRun(step.1, ks[1..]);
      var r := StatSnRun(sn, ks);
      if TakesStatSn(ks[0]) {
        assert step == (sn, (sn + 1) % U32_MOD);
        assert r == ([sn] + rest.0, rest.1);
        forall j | 0 <= j < |rest.0|
          ensures rest.0[j] == (sn + (j + 1)) % U32_MOD
        {
          ModShift(sn, j + 1);
        }
        ModShift(sn, |rest.0| + 1);
      } else {
        assert step.1 == sn && r == rest;
      }
    }
  }

  /** `((sn + 1) mod 2^32 + i - 1) mod 2^32 == (sn + i) mod 2^32`. */
  lemma ModShift(sn: u32, i: nat)
    requires i > 0
    ensures ((sn + 1) % U32_MOD + (i - 1)) % U32_MOD == (sn + i) % U32_MOD
  {
    if sn + 1 == U32_MOD {
      assert (sn + 1) % U32_MOD == 0;
      assert sn + i == U32_MOD + (i - 1);
    }
  }

  /**
   * Fewer than 2^32 responses never share a StatSN.
   */
  lemma StatSnRunDistinct(sn: u32, ks: seq<PduKind>)
    requires |ks| <= U32_MOD
    ensures var r := StatSnRun(sn, ks);
      forall i, j :: 0 <= i < j < |r.0| ==> r.0[i] != r.0[j]
  {
    StatSnRunConsecutive(sn, ks);
    var r := StatSnRun(sn, ks);
    forall i, j | 0 <= i < j < |r.0|
      ensures r.0[i] != r.0[j]
    {
      assert r.0[i] == (sn + i) % U32_MOD && r.0[j] == (sn + j) % U32_MOD;
      ModDistinct(sn, i, j);
    }
  }

  /** Two offsets less than 2^32 apart land on different residues. */
  lemma ModDistinct(base: int, i: nat, j: nat)
    requires base >= 0 && i < j < i + U32_MOD
    ensures (base + i) % U32_MOD != (base + j) % U32_MOD
  {
    ModStep(base + i, j - i, U32_MOD);
  }

  lemma MulAtLeast(t: int, m: int)
    requires m > 0
    ensures t >= 1 ==> t * m >= m
    ensures t <= -1 ==> t * m <= -m
  {
    if t >= 1 {
      assert t * m == (t - 1) * m + m;
    } else if t <= -1 {
      assert t * m == (t + 1) * m - m;
    }
  }

  /** The remainder is the one `s` that fits `x == k * m + s`. */
  lemma ModUnique(x: int, k: int, s: int, m: int)
    requires m > 0 && 0 <= s < m && x == k * m + s
    ensures x % m == s
  {
    var q := x / m;
    var r := x % m;
    assert x == q * m + r;
    assert (k - q) * m == r - s;
    MulAtLeast(k - q, m);
  }

  /** Moving less than a full period away changes the residue. */
  lemma ModStep(a: nat, d: nat, m: nat)
    requires 0 < d < m
    ensures (a + d) % m != a % m
  {
    var q := a / m;
    var r := a % m;
    assert a == q * m + r;
    if r + d < m {
      ModUnique(a + d, q, r + d, m);
    } else {
      assert a + d == (q + 1) * m + (r + d - m);
      ModUnique(a + d, q + 1, r + d - m, m);
    }
  }

  /** The Target Transfer Tags that can be handed out: all but 0xffffffff. */
  const TTT_PERIOD: nat := 0xFFFF_FFFF

  /**
   * `ttt = sess->targ_xfer_tag++; if (ttt == 0xFFFFFFFF) ttt =
   * sess->targ_xfer_tag++;` on a counter `counter`: the tag handed out and
   * the counter afterwards. The tag is never the reserved one, and the
   * counter is left one past it.
   */
  function TttAlloc(counter: u32): (r: (u32, u32))
    ensures r.0 != RESERVED_TAG
    ensures r.1 == Inc32(r.0)
    ensures counter != RESERVED_TAG ==> r.0 == counter
  {
    if counter == RESERVED_TAG then (Inc32(counter), Inc32(Inc32(counter))) else (counter, Inc32(counter))
  }

  /** The tags `n` successive allocations hand out from `counter`. */
  function TttRun(counter: u32, n: nat): (tags: seq<u32>)
    ensures |tags| == n
    decreases n
  {
    if n == 0 then []
    else
      var a := TttAlloc(counter);
      [a.0] + TttRun(a.1, n - 1)
  }

  /**
   * Successive tags count up from the counter (from 0 when it stands at
   * the reserved value), skipping 0xffffffff: the i-th is
   * (start + i) mod (2^32 - 1).
   */
  lemma {:induction false} TttRunCycle(counter: u32, n: nat)
    ensures var start := if counter == RESERVED_TAG then 0 else counter;
      forall i :: 0 <= i < n ==> TttRun(counter, n)[i] == (start + i) % TTT_PERIOD
    decreases n
  {
    if n > 0 {
      var start := if counter == RESERVED_TAG then 0 else counter;
      var a := TttAlloc(counter);
      assert a.0 == start;
      TttRunCycle(a.1, n - 1);
      var start' := if a.1 == RESERVED_TAG then 0 else a.1;
      assert start' == (start + 1) % TTT_PERIOD;
      var rest := TttRun(a.1, n - 1);
      var tags := TttRun(counter, n);
      assert tags == [start] + rest;
      forall j | 0 <= j < n - 1
        ensures rest[j] == (start + (j + 1)) % TTT_PERIOD
      {
        if start + 1 == TTT_PERIOD {
          assert start' == 0;
          assert start + (j + 1) == TTT_PERIOD + j;
        }
      }
    }
  }

  /**
   * Up to 2^32 - 1 successive allocations hand out distinct tags, none of
   * them the reserved 0xffffffff.
   */
  lemma TttRunDistinct(counter: u32, n: nat)
    requires n <= TTT_PERIOD
    ensures var tags := TttRun(counter, n);
      && (forall i :: 0 <= i < n ==> tags[i] != RESERVED_TAG)
      && (forall i, j :: 0 <= i < j < n ==> tags[i] != tags[j])
  {
    TttRunCycle(counter, n);
    var start := if counter == RESERVED_TAG then 0 else counter;
    var tags := TttRun(counter, n);
    forall i, j | 0 <= i < j < n
      ensures tags[i] != tags[j]
    {
      ModStep(start + i, j - i, TTT_PERIOD);
    }
  }
}
