/**
 * An iSCSI connection and session of the target (struct iscsi_conn and
 * struct iscsi_session) with the state iscsi_target.c updates in place:
 * the command list and the two queues of the transmit thread, the StatSN
 * and Target Transfer Tag counters, and the connection states the logout
 * handlers move through.
 */
module TargetConn {
  import opened Common
  import opened IscsiTypes
  import opened R2tPlan
  import opened TargetCmd
  import opened Counters
  import DataOut
  import ScsiCmd
  import Logout
  import TaskMgmt

  /** A request to the transmit thread: the command and the state to act on. */
  datatype QueueEntry = QueueEntry(cmd: Cmd, state: CmdState)

  /** What iscsit_handle_immediate_data returns. */
  datatype ImmediateResult = ImmediateNormal | ImmediateErl1CrcFailure | ImmediateCannotRecover

  /** Asynchronous event codes (section 10.9.1 of RFC 3720). */
  const ASYNC_SCSI_EVENT: u8 := 0
  const ASYNC_REQUEST_LOGOUT: u8 := 1
  const ASYNC_DROPPING_CONNECTION: u8 := 2
  const ASYNC_DROPPING_ALL_CONNECTIONS: u8 := 3
  const ASYNC_PARAM_NEGOTIATION: u8 := 4
  const ASYNC_VENDOR_SPECIFIC: u8 := 255

  predicate Distinct<T(==)>(s: seq<T>) {
    forall i, j :: 0 <= i < j < |s| ==> s[i] != s[j]
  }

  /**
   * The bytes a builder puts in `cmd->tx_size`: the 48-byte header, the
   * header digest when HeaderDigest is on, and for a PDU with a data
   * segment of `payload` bytes, the data, its pad bytes and, when
   * DataDigest is on, the data digest. Every PDU is a whole number of
   * 4-byte words.
   */
  function PduTxSize(payload: Option<u32>, ops: ConnOps): (n: nat)
    ensures n % 4 == 0
    ensures payload.None? ==> n == ISCSI_HDR_LEN + (if ops.headerDigest then ISCSI_CRC_LEN else 0)
    ensures payload.Some? ==> ISCSI_HDR_LEN + payload.value <= n < ISCSI_HDR_LEN + payload.value + 12
  {
    ISCSI_HDR_LEN + (if ops.headerDigest then ISCSI_CRC_LEN else 0)
      + (if payload.Some? then DataOut.DataSegmentRxSize(payload.value, ops.dataDigest) else 0)
  }

  /** Whether the immediate data is answered with a data digest reject. */
  predicate ImmediateDataRejected(mapOk: bool, received: bool, digestOk: bool, dataDigest: bool) {
    mapOk && received && dataDigest && !digestOk
  }

  /**
   * iscsit_handle_immediate_data on a command with fields `f` and
   * `data_length` `dataLength`, for `length` bytes of immediate data:
   * `mapOk` says whether mapping the data segment into the command's
   * buffers succeeds (the digest check maps the same segment again, with
   * the same arguments), `received` whether the whole segment arrives, and
   * `digestOk` whether the DataDigest matches. The command's fields after
   * it, and the result.
   */
  function ImmediateData(f: CmdFields, dataLength: u32, length: u32, mapOk: bool, received: bool,
                         digestOk: bool, dataDigest: bool, erl: nat): (r: (CmdFields, ImmediateResult))
    ensures r.1 == ImmediateNormal <==> mapOk && received && (digestOk || !dataDigest)
    ensures r.1 == ImmediateErl1CrcFailure <==> mapOk && received && dataDigest && !digestOk && erl != 0
    ensures r.1 != ImmediateNormal ==> r.0.writeDataDone == f.writeDataDone && r.0.r2t == f.r2t
    ensures !mapOk || !received ==> r == (f, ImmediateCannotRecover)
    ensures ImmediateDataRejected(mapOk, received, digestOk, dataDigest) ==>
              r.0 == f.(iState := SendReject, rejectReason := Some(DataDigestError),
                        flags := if erl == 0 then f.flags + {RejectFailConn} else f.flags)
    ensures r.1 == ImmediateNormal ==>
              && r.0.writeDataDone == (f.writeDataDone + length) % U32_MOD
              && (r.0.writeDataDone == dataLength ==>
                    r.0.iState == ReceivedLastDataOut && r.0.flags == f.flags + {GotLastDataOut})
              && (r.0.writeDataDone != dataLength ==> r.0 == f.(writeDataDone := r.0.writeDataDone))
  {
    if !mapOk || !received then (f, ImmediateCannotRecover)
    else if dataDigest && !digestOk then
      var g := f.(iState := SendReject, rejectReason := Some(DataDigestError),
                  flags := if erl == 0 then f.flags + {RejectFailConn} else f.flags);
      (g, if erl == 0 then ImmediateCannotRecover else ImmediateErl1CrcFailure)
    else
      var done := (f.writeDataDone + length) % U32_MOD;
      if done == dataLength then
        (f.(writeDataDone := done, flags := f.flags + {GotLastDataOut}, iState := ReceivedLastDataOut),
         ImmediateNormal)
      else (f.(writeDataDone := done), ImmediateNormal)
  }

  /**
   * The immediate data of a newly accepted SCSI Command: it is the first
   * data of the command, so with the segment received intact the command
   * has received exactly the DataSegmentLength bytes, and it has all its
   * data, exactly when no unsolicited Data-Out is to follow and the
   * immediate data is the whole expected length.
   */
  lemma ImmediateDataOfNewCommand(h: ScsiCmd.ScsiCmdHdr, sessOps: SessOps, connOps: ConnOps,
                                  f: CmdFields, erl: nat)
    requires ScsiCmd.WellFormedHdr(h)
    requires ScsiCmd.CheckScsiCmd(h, sessOps, connOps).Accept?
    requires h.payloadLength > 0 && f.writeDataDone == 0 && f.iState == NewCmd
    ensures var r := ImmediateData(f, h.dataLength, h.payloadLength, true, true, true, connOps.dataDigest, erl);
      && r.1 == ImmediateNormal
      && r.0.writeDataDone == h.payloadLength <= h.dataLength
      && (r.0.iState == ReceivedLastDataOut <==> h.payloadLength == h.dataLength)
      && (ScsiCmd.CheckScsiCmd(h, sessOps, connOps).unsolicitedData ==> r.0.iState == NewCmd)
  {
    ScsiCmd.AcceptedCommand(h, sessOps, connOps);
  }

  /** The command's status was sent with a StatSN that ExpStatSN `e` acknowledges. */
  predicate Acked(f: CmdFields, e: u32) {
    f.iState == SentStatus && f.statSn < e
  }

  /** A command after iscsit_ack_from_expstatsn: an acknowledged one is to be removed. */
  function AfterAck(f: CmdFields, e: u32): (g: CmdFields)
    ensures Acked(f, e) ==> g == f.(iState := Remove)
    ensures !Acked(f, e) ==> g == f
  {
    if Acked(f, e) then f.(iState := Remove) else f
  }

  /** The fields of the commands `cs`, in list order. */
  ghost function FieldsOf(cs: seq<Cmd>): (fs: seq<CmdFields>)
    reads cs
    ensures |fs| == |cs| && forall j :: 0 <= j < |cs| ==> fs[j] == cs[j].Fields()
  {
    seq(|cs|, j requires 0 <= j < |cs| reads cs => cs[j].Fields())
  }

  /**
   * The queue entries iscsit_ack_from_expstatsn adds for the commands `cs`
   * with fields `fs`, in list order: one ISTATE_REMOVE entry per command
   * whose status ExpStatSN `e` acknowledges.
   */
  function SweptEntries(cs: seq<Cmd>, fs: seq<CmdFields>, e: u32): (q: seq<QueueEntry>)
    requires |fs| == |cs|
    ensures |q| <= |cs|
  {
    if |cs| == 0 then []
    else
      var n := |cs| - 1;
      SweptEntries(cs[..n], fs[..n], e) + (if Acked(fs[n], e) then [QueueEntry(cs[n], Remove)] else [])
  }

  /** The sweep queues only ISTATE_REMOVE entries, each for a command of the list. */
  lemma {:induction false} SweptEntriesRemove(cs: seq<Cmd>, fs: seq<CmdFields>, e: u32)
    requires |fs| == |cs|
    ensures forall k :: 0 <= k < |SweptEntries(cs, fs, e)| ==>
      SweptEntries(cs, fs, e)[k].state == Remove && SweptEntries(cs, fs, e)[k].cmd in cs
    decreases |cs|
  {
    if |cs| > 0 {
      var n := |cs| - 1;
      SweptEntriesRemove(cs[..n], fs[..n], e);
      var init := SweptEntries(cs[..n], fs[..n], e);
      var q := SweptEntries(cs, fs, e);
      forall k | 0 <= k < |q|
        ensures q[k].state == Remove && q[k].cmd in cs
      {
        if k < |init| {
          assert q[k] == init[k];
          assert init[k].cmd in cs[..n];
          assert cs[..n] <= cs;
        } else {
          assert q[k] == QueueEntry(cs[n], Remove);
        }
      }
    }
  }

  /**
   * On a list without duplicates, every acknowledged command is queued for
   * removal exactly once and every other command not at all.
   */
  lemma {:induction false} SweptOnce(cs: seq<Cmd>, fs: seq<CmdFields>, e: u32)
    requires |fs| == |cs| && Distinct(cs)
    ensures forall j :: 0 <= j < |cs| ==>
      multiset(SweptEntries(cs, fs, e))[QueueEntry(cs[j], Remove)] == (if Acked(fs[j], e) then 1 else 0)
    decreases |cs|
  {
    if |cs| > 0 {
      var n := |cs| - 1;
      var init := cs[..n];
      SweptOnce(init, fs[..n], e);
      var tail := if Acked(fs[n], e) then [QueueEntry(cs[n], Remove)] else [];
      assert SweptEntries(cs, fs, e) == SweptEntries(init, fs[..n], e) + tail;
      forall j | 0 <= j < |cs|
        ensures multiset(SweptEntries(cs, fs, e))[QueueEntry(cs[j], Remove)] == (if Acked(fs[j], e) then 1 else 0)
      {
        if j < n {
          assert cs[j] == init[j] && fs[j] == fs[..n][j];
          assert cs[j] != cs[n];
          assert QueueEntry(cs[j], Remove) !in multiset(tail);
        } else {
          assert cs[n] !in init;
          SweptEntriesRemove(init, fs[..n], e);
          assert QueueEntry(cs[n], Remove) !in SweptEntries(init, fs[..n], e);
        }
      }
    }
  }

  /**
   * One command of the walk of iscsit_ack_from_expstatsn: an acknowledged
   * one moves to ISTATE_REMOVE and gives the entry to queue.
   */
  method AckOne(c: Cmd, e: u32) returns (entry: seq<QueueEntry>)
    modifies c
    ensures c.Fields() == AfterAck(old(c.Fields()), e)
    ensures entry == if Acked(old(c.Fields()), e) then [QueueEntry(c, Remove)] else []
  {
    entry := [];
    if c.iState == SentStatus && c.statSn < e {
      c.MarkRemoved();
      entry := [QueueEntry(c, Remove)];
    }
  }

  /** The entries for the first i + 1 commands extend those for the first i. */
  lemma SweptEntriesSnoc(cs: seq<Cmd>, fs: seq<CmdFields>, e: u32, i: nat)
    requires |fs| == |cs| && i < |cs|
    ensures SweptEntries(cs[..i + 1], fs[..i + 1], e)
            == SweptEntries(cs[..i], fs[..i], e) + (if Acked(fs[i], e) then [QueueEntry(cs[i], Remove)] else [])
  {
    assert cs[..i + 1][..i] == cs[..i] && fs[..i + 1][..i] == fs[..i];
  }

  /**
   * The walk of iscsit_ack_from_expstatsn over the connection's commands
   * `cs`, whose fields are `fs` on entry: each acknowledged one moves to
   * ISTATE_REMOVE, and the entries for the immediate queue come back in
   * list order.
   */
  method SweepAcked(cs: seq<Cmd>, ghost fs: seq<CmdFields>, e: u32) returns (swept: seq<QueueEntry>)
    requires Distinct(cs) && |fs| == |cs| && forall j :: 0 <= j < |cs| ==> cs[j].Fields() == fs[j]
    modifies cs
    ensures swept == SweptEntries(cs, fs, e)
    ensures forall j :: 0 <= j < |cs| ==> cs[j].Fields() == AfterAck(fs[j], e)
  {
    swept := [];
    var i := 0;
    while i < |cs|
      invariant 0 <= i <= |cs|
      invariant swept == SweptEntries(cs[..i], fs[..i], e)
      invariant forall j :: 0 <= j < i ==> cs[j].Fields() == AfterAck(fs[j], e)
      invariant forall j :: i <= j < |cs| ==> cs[j].Fields() == fs[j]
    {
      var c := cs[i];
      SweptEntriesSnoc(cs, fs, e, i);
      assert c.Fields() == fs[i];
      label Before:
      var entry := AckOne(c, e);
      forall j | 0 <= j < |cs| && j != i
        ensures cs[j].Fields() == old@Before(cs[j].Fields())
      {
        assert cs[j] != c;
      }
      swept := swept + entry;
      i := i + 1;
    }
    assert cs[..|cs|] == cs && fs[..|fs|] == fs;
  }

  /** The fields of a connection the model follows. */
  datatype ConnFields = ConnFields(
    state: ConnState,
    statSn: u32,
    expStatSn: u32,
    cmds: seq<Cmd>,
    immediateQueue: seq<QueueEntry>,
    responseQueue: seq<QueueEntry>,
    logoutRemove: bool,
    logoutReason: nat)

  /** The header fields of an R2T PDU that the target fills in from its counters. */
  datatype R2tHdr = R2tHdr(itt: u32, ttt: u32, statSn: u32, offset: u32, xferLen: u32)

  class Conn {
    const cid: nat
    const ops: ConnOps

    var state: ConnState
    var statSn: u32                      // stat_sn: the next StatSN to hand out
    var expStatSn: u32                   // exp_statsn: the last ExpStatSN the initiator sent
    var cmds: seq<Cmd>                   // conn_cmd_list
    var immediateQueue: seq<QueueEntry>  // immediate queue of the transmit thread
    var responseQueue: seq<QueueEntry>   // response queue of the transmit thread
    var logoutRemove: bool               // conn_logout_remove
    var logoutReason: nat                // conn_logout_reason

    ghost function Fields(): ConnFields
      reads this
    {
      ConnFields(state, statSn, expStatSn, cmds, immediateQueue, responseQueue, logoutRemove, logoutReason)
    }

    constructor (cid: nat, ops: ConnOps, state: ConnState, statSn: u32)
      ensures this.cid == cid && this.ops == ops
      ensures Fields() == ConnFields(state, statSn, 0, [], [], [], false, 0)
    {
      this.cid := cid;
      this.ops := ops;
      this.state := state;
      this.statSn := statSn;
      expStatSn := 0;
      cmds := [];
      immediateQueue := [];
      responseQueue := [];
      logoutRemove := false;
      logoutReason := 0;
    }

    /**
     * iscsit_ack_from_expstatsn: records ExpStatSN `e`, and every command
     * whose status was sent with a StatSN below `e` moves to ISTATE_REMOVE
     * and is queued on the immediate queue, in list order; no other
     * command changes, and nothing else of any command does.
     */
    method AckFromExpStatSn(e: u32)
      requires Distinct(cmds)
      modifies this, cmds
      ensures Fields() == old(Fields()).(expStatSn := e, immediateQueue := old(immediateQueue) + SweptEntries(old(cmds), old(FieldsOf(cmds)), e))
      ensures forall j :: 0 <= j < |cmds| ==> cmds[j].Fields() == AfterAck(old(cmds[j].Fields()), e)
    {
      expStatSn := e;
      var swept := SweepAcked(cmds, FieldsOf(cmds), e);
      immediateQueue := immediateQueue + swept;
    }

    /**
     * The command joins the connection's command list and is queued on the
     * response queue in its current state.
     */
    method AddCmd(cmd: Cmd)
      modifies this
      ensures Fields() == old(Fields()).(cmds := old(cmds) + [cmd], responseQueue := old(responseQueue) + [QueueEntry(cmd, cmd.iState)])
    {
      cmds := cmds + [cmd];
      responseQueue := responseQueue + [QueueEntry(cmd, cmd.iState)];
    }

    /** `conn->conn_state = TARG_CONN_STATE_IN_LOGOUT`. */
    method EnterLogout()
      modifies this
      ensures Fields() == old(Fields()).(state := InLogout)
    {
      state := InLogout;
    }

    /**
     * iscsit_handle_immediate_data for `length` bytes of immediate data of
     * `cmd` on a session at ErrorRecoveryLevel `erl`: the bytes it reads
     * (data, pad and digest; none when the mapping fails), the command's
     * new fields as ImmediateData says, and a digest failure queues the
     * command's reject on the response queue.
     */
    method HandleImmediateData(cmd: Cmd, length: u32, mapOk: bool, received: bool, digestOk: bool, erl: nat)
      returns (r: ImmediateResult, rxSize: nat)
      modifies this, cmd
      ensures !mapOk ==> rxSize == 0
      ensures mapOk ==> rxSize == DataOut.DataSegmentRxSize(length, ops.dataDigest)
      ensures (cmd.Fields(), r) == ImmediateData(old(cmd.Fields()), cmd.dataLength, length, mapOk, received,
                                                 digestOk, ops.dataDigest, erl)
      ensures Fields() == old(Fields()).(responseQueue := old(responseQueue) +
                (if ImmediateDataRejected(mapOk, received, digestOk, ops.dataDigest) then [QueueEntry(cmd, CmdState.SendReject)] else []))
    {
      if !mapOk {
        return ImmediateCannotRecover, 0;
      }
      rxSize := length + Pad4(length);
      if ops.dataDigest {
        rxSize := rxSize + ISCSI_CRC_LEN;
      }
      if !received {
        return ImmediateCannotRecover, rxSize;
      }
      if ops.dataDigest && !digestOk {
        cmd.rejectReason := Some(DataDigestError);
        if erl == 0 {
          cmd.flags := cmd.flags + {RejectFailConn};
        }
        cmd.iState := CmdState.SendReject;
        responseQueue := responseQueue + [QueueEntry(cmd, cmd.iState)];
        r := if erl == 0 then ImmediateCannotRecover else ImmediateErl1CrcFailure;
        return;
      }
      cmd.writeDataDone := (cmd.writeDataDone + length) % U32_MOD;
      if cmd.writeDataDone == cmd.dataLength {
        cmd.flags := cmd.flags + {GotLastDataOut};
        cmd.iState := ReceivedLastDataOut;
      }
      r := ImmediateNormal;
    }

    /**
     * iscsit_send_status: a new SCSI Response (i_state ISTATE_SEND_STATUS)
     * takes the next StatSN, a recovery resend keeps the command's; the
     * PDU carries `sense` bytes of sense data when the core attached any.
     */
    method SendStatus(cmd: Cmd, sense: Option<u32>) returns (rc: int)
      modifies this, cmd
      ensures rc == 0
      ensures (cmd.statSn, statSn) == StatSnStep(old(statSn), old(cmd.statSn), ScsiRsp(old(cmd.iState) != CmdState.SendStatus))
      ensures cmd.Fields() == old(cmd.Fields()).(statSn := cmd.statSn, txSize := PduTxSize(sense, ops))
      ensures Fields() == old(Fields()).(statSn := statSn)
    {
      var recovery := cmd.iState != CmdState.SendStatus;
      if !recovery {
        cmd.statSn := statSn;
        statSn := Inc32(statSn);
      }
      var txSize := ISCSI_HDR_LEN;
      if sense.Some? {
        var padding := Pad4(sense.value);
        txSize := txSize + sense.value + padding;
        if ops.dataDigest {
          txSize := txSize + ISCSI_CRC_LEN;
        }
      }
      if ops.headerDigest {
        txSize := txSize + ISCSI_CRC_LEN;
      }
      cmd.txSize := txSize;
      rc := 0;
    }

    /**
     * iscsit_send_logout_response: the response code is the one
     * Logout.SendLogoutResponse gives for the command's reason and the code
     * its handler left (`crFound`: whether the connection recovery entry
     * of a recovery removal exists); the PDU takes the next StatSN. An
     * unknown reason builds nothing and returns -1.
     */
    method SendLogoutResponse(cmd: Cmd, crFound: bool) returns (rc: int)
      modifies this, cmd
      ensures var rsp := Logout.SendLogoutResponse(cmd.logoutReason, old(cmd.logoutResponse), crFound);
        && (rsp.None? ==> rc == -1 && cmd.Fields() == old(cmd.Fields()) && Fields() == old(Fields()))
        && (rsp.Some? ==>
              && rc == 0
              && (cmd.statSn, statSn) == StatSnStep(old(statSn), old(cmd.statSn), LogoutRsp)
              && cmd.Fields() == old(cmd.Fields()).(logoutResponse := rsp.value, statSn := cmd.statSn,
                                                    txSize := PduTxSize(None, ops))
              && Fields() == old(Fields()).(statSn := statSn))
    {
      var reason := cmd.logoutReason;
      if reason == CLOSE_SESSION {
        cmd.logoutResponse := LOGOUT_SUCCESS;
      } else if reason == CLOSE_CONNECTION {
        if cmd.logoutResponse != LOGOUT_CID_NOT_FOUND {
          cmd.logoutResponse := LOGOUT_SUCCESS;
        }
      } else if reason == REMOVE_FOR_RECOVERY {
        if cmd.logoutResponse != LOGOUT_RECOVERY_UNSUPPORTED && cmd.logoutResponse != LOGOUT_CLEANUP_FAILED {
          cmd.logoutResponse := if crFound then LOGOUT_SUCCESS else LOGOUT_CID_NOT_FOUND;
        }
      } else {
        return -1;
      }
      cmd.statSn := statSn;
      statSn := Inc32(statSn);
      cmd.txSize := if ops.headerDigest then ISCSI_HDR_LEN + ISCSI_CRC_LEN else ISCSI_HDR_LEN;
      rc := 0;
    }

    /**
     * iscsit_send_unsolicited_nopin: the NOP-In reports the current StatSN
     * without taking it.
     */
    method SendUnsolicitedNopin(cmd: Cmd) returns (rc: int)
      modifies cmd
      ensures rc == 0
      ensures (cmd.statSn, statSn) == StatSnStep(statSn, old(cmd.statSn), UnsolicitedNopIn)
      ensures cmd.Fields() == old(cmd.Fields()).(statSn := statSn, txSize := PduTxSize(None, ops))
    {
      cmd.statSn := statSn;
      cmd.txSize := if ops.headerDigest then ISCSI_HDR_LEN + ISCSI_CRC_LEN else ISCSI_HDR_LEN;
      rc := 0;
    }

    /**
     * iscsit_send_nopin_response: the NOP-In answering a NOP-Out takes the
     * next StatSN and echoes the `pingLength` bytes of ping data.
     */
    method SendNopinResponse(cmd: Cmd, pingLength: u32) returns (rc: int)
      modifies this, cmd
      ensures rc == 0
      ensures (cmd.statSn, statSn) == StatSnStep(old(statSn), old(cmd.statSn), NopInRsp)
      ensures cmd.Fields() == old(cmd.Fields()).(statSn := cmd.statSn,
                                                txSize := PduTxSize(if pingLength != 0 then Some(pingLength) else None, ops))
      ensures Fields() == old(Fields()).(statSn := statSn)
    {
      cmd.statSn := statSn;
      statSn := Inc32(statSn);
      var txSize := ISCSI_HDR_LEN;
      if ops.headerDigest {
        txSize := txSize + ISCSI_CRC_LEN;
      }
      if pingLength != 0 {
        txSize := txSize + pingLength;
        var padding := Pad4(pingLength);
        if padding != 0 {
          txSize := txSize + padding;
        }
        if ops.dataDigest {
          txSize := txSize + ISCSI_CRC_LEN;
        }
      }
      cmd.txSize := txSize;
      rc := 0;
    }

    /**
     * iscsit_send_r2t: the first R2T of the command not yet sent goes out
     * with a Target Transfer Tag from the session, which is stored with the
     * R2T, and the current StatSN, which it does not take; with none left
     * it returns -1.
     */
    method SendR2T(cmd: Cmd, sess: Session) returns (rc: int, hdr: Option<R2tHdr>)
      modifies cmd, sess
      ensures var st := old(cmd.r2t); var n := |st.tags|;
        && (n >= |st.queued| ==>
              rc == -1 && hdr == None && cmd.Fields() == old(cmd.Fields()) && sess.Fields() == old(sess.Fields()))
        && (n < |st.queued| ==>
              var alloc := TttAlloc(old(sess.targXferTag));
              && rc == 0
              && hdr == Some(R2tHdr(cmd.initTaskTag, alloc.0, statSn, st.queued[n].offset, st.queued[n].xferLen))
              && sess.Fields() == old(sess.Fields()).(targXferTag := alloc.1)
              && cmd.Fields() == old(cmd.Fields()).(r2t := st.(tags := st.tags + [alloc.0]), txSize := PduTxSize(None, ops)))
    {
      var n := |cmd.r2t.tags|;
      if n >= |cmd.r2t.queued| {
        return -1, None;
      }
      var r2t := cmd.r2t.queued[n];
      var ttt := sess.AllocTtt();
      hdr := Some(R2tHdr(cmd.initTaskTag, ttt, statSn, r2t.offset, r2t.xferLen));
      cmd.txSize := if ops.headerDigest then ISCSI_HDR_LEN + ISCSI_CRC_LEN else ISCSI_HDR_LEN;
      cmd.r2t := cmd.r2t.(tags := cmd.r2t.tags + [ttt]);
      rc := 0;
    }

    /**
     * iscsit_send_task_mgt_rsp: the response code is the target core's
     * answer converted by ConvertTmrRsp, and the PDU takes the next StatSN.
     */
    method SendTaskMgtRsp(cmd: Cmd, tmr: TmrResponse) returns (rc: int, response: u8)
      modifies this, cmd
      ensures rc == 0 && response == TaskMgmt.ConvertTmrRsp(tmr)
      ensures (cmd.statSn, statSn) == StatSnStep(old(statSn), old(cmd.statSn), TaskMgtRsp)
      ensures cmd.Fields() == old(cmd.Fields()).(statSn := cmd.statSn, txSize := PduTxSize(None, ops))
      ensures Fields() == old(Fields()).(statSn := statSn)
    {
      response := TaskMgmt.ConvertTmrRsp(tmr);
      cmd.statSn := statSn;
      statSn := Inc32(statSn);
      cmd.txSize := if ops.headerDigest then ISCSI_HDR_LEN + ISCSI_CRC_LEN else ISCSI_HDR_LEN;
      rc := 0;
    }

    /**
     * iscsit_send_text_rsp, given what iscsit_build_sendtargets_response
     * returned (a C int: the length of the SendTargets text, or a negative
     * error, which is passed back with nothing built). The PDU takes the
     * next StatSN.
     */
    method SendTextRsp(cmd: Cmd, textLength: int) returns (rc: int)
      requires -0x8000_0000 <= textLength < 0x8000_0000
      modifies this, cmd
      ensures textLength < 0 ==> rc == textLength && cmd.Fields() == old(cmd.Fields()) && Fields() == old(Fields())
      ensures textLength >= 0 ==>
        && rc == 0
        && (cmd.statSn, statSn) == StatSnStep(old(statSn), old(cmd.statSn), TextRsp)
        && cmd.Fields() == old(cmd.Fields()).(statSn := cmd.statSn, txSize := PduTxSize(Some(textLength), ops))
        && Fields() == old(Fields()).(statSn := statSn)
    {
      if textLength < 0 {
        return textLength;
      }
      var padding := Pad4(textLength);
      cmd.statSn := statSn;
      statSn := Inc32(statSn);
      var txSize := ISCSI_HDR_LEN + textLength + padding;
      if ops.headerDigest {
        txSize := txSize + ISCSI_CRC_LEN;
      }
      if ops.dataDigest {
        txSize := txSize + ISCSI_CRC_LEN;
      }
      cmd.txSize := txSize;
      rc := 0;
    }

    /**
     * iscsit_send_reject: the Reject takes the next StatSN and carries the
     * rejected 48-byte header as its data segment.
     */
    method SendReject(cmd: Cmd) returns (rc: int)
      modifies this, cmd
      ensures rc == 0
      ensures (cmd.statSn, statSn) == StatSnStep(old(statSn), old(cmd.statSn), RejectPdu)
      ensures cmd.Fields() == old(cmd.Fields()).(statSn := cmd.statSn, txSize := PduTxSize(Some(ISCSI_HDR_LEN), ops))
      ensures Fields() == old(Fields()).(statSn := statSn)
    {
      cmd.statSn := statSn;
      statSn := Inc32(statSn);
      var txSize := ISCSI_HDR_LEN + ISCSI_HDR_LEN;
      if ops.headerDigest {
        txSize := txSize + ISCSI_CRC_LEN;
      }
      if ops.dataDigest {
        txSize := txSize + ISCSI_CRC_LEN;
      }
      cmd.txSize := txSize;
      rc := 0;
    }

    /**
     * iscsit_send_conn_drop_async_message: the Async Message announcing a
     * dropped connection takes the next StatSN, and the command's ITT and
     * TTT become the reserved tag.
     */
    method SendConnDropAsync(cmd: Cmd) returns (rc: int)
      modifies this, cmd
      ensures rc == 0
      ensures (cmd.statSn, statSn) == StatSnStep(old(statSn), old(cmd.statSn), ConnDropAsync)
      ensures cmd.Fields() == old(cmd.Fields()).(initTaskTag := RESERVED_TAG, targXferTag := RESERVED_TAG,
                                                statSn := cmd.statSn, txSize := PduTxSize(None, ops))
      ensures Fields() == old(Fields()).(statSn := statSn)
    {
      cmd.txSize := ISCSI_HDR_LEN;
      cmd.initTaskTag := RESERVED_TAG;
      cmd.targXferTag := RESERVED_TAG;
      cmd.statSn := statSn;
      statSn := Inc32(statSn);
      if ops.headerDigest {
        cmd.txSize := cmd.txSize + ISCSI_CRC_LEN;
      }
      rc := 0;
    }

    /**
     * iscsit_send_async_msg up to the send: the header takes the next
     * StatSN before the event is looked at, so an event the target does
     * not support (a SCSI event, a vendor-specific or an unknown code)
     * still uses one up and returns -1. A logout request moves the
     * connection to LOGOUT_REQUESTED.
     */
    method SendAsyncMsg(event: u8) returns (rc: int, pduStatSn: u32)
      modifies this
      ensures (pduStatSn, statSn) == StatSnStep(old(statSn), 0, AsyncMsg)
      ensures rc == (if event in {ASYNC_REQUEST_LOGOUT, ASYNC_DROPPING_CONNECTION,
                                  ASYNC_DROPPING_ALL_CONNECTIONS, ASYNC_PARAM_NEGOTIATION} then 0 else -1)
      ensures Fields() == old(Fields()).(statSn := statSn,
                                        state := if event == ASYNC_REQUEST_LOGOUT then LogoutRequested else old(state))
    {
      pduStatSn := statSn;
      statSn := Inc32(statSn);
      if event == ASYNC_REQUEST_LOGOUT {
        state := LogoutRequested;
        rc := 0;
      } else if event == ASYNC_DROPPING_CONNECTION || event == ASYNC_DROPPING_ALL_CONNECTIONS
             || event == ASYNC_PARAM_NEGOTIATION {
        rc := 0;
      } else {
        rc := -1;
      }
    }

    /**
     * iscsit_logout_closeconnection: a close of this connection moves it
     * to IN_LOGOUT and marks it for removal; a close of another CID that
     * the session does not have (`found` false) answers CID_NOT_FOUND. The
     * command is queued for its response either way.
     */
    method LogoutCloseConnection(cmd: Cmd, found: bool) returns (rc: int)
      modifies this, cmd
      ensures rc == 0
      ensures var same := cid == cmd.logoutCid;
        && cmd.Fields() == old(cmd.Fields()).(logoutResponse := if !same && !found then LOGOUT_CID_NOT_FOUND
                                                                else old(cmd.logoutResponse))
        && Fields() == old(Fields()).(
             state := if same then InLogout else old(state),
             logoutRemove := if same then true else old(logoutRemove),
             logoutReason := if same then CLOSE_CONNECTION else old(logoutReason),
             responseQueue := old(responseQueue) + [QueueEntry(cmd, cmd.iState)])
      ensures old(cmd.logoutResponse) == LOGOUT_SUCCESS ==>
        cmd.logoutResponse == Logout.HandlerResponse(CLOSE_CONNECTION, cid == cmd.logoutCid, found, 0)
    {
      if cid == cmd.logoutCid {
        state := InLogout;
        logoutRemove := true;
        logoutReason := CLOSE_CONNECTION;
      } else if !found {
        cmd.logoutResponse := LOGOUT_CID_NOT_FOUND;
      }
      responseQueue := responseQueue + [QueueEntry(cmd, cmd.iState)];
      rc := 0;
    }

    /**
     * iscsit_logout_removeconnforrecovery: below ErrorRecoveryLevel 2 the
     * answer is RECOVERY_UNSUPPORTED, and removing this very connection
     * for recovery is CLEANUP_FAILED. The command is queued for its
     * response either way.
     */
    method LogoutRemoveConnForRecovery(cmd: Cmd, erl: nat) returns (rc: int)
      modifies this, cmd
      ensures rc == 0
      ensures cmd.Fields() == old(cmd.Fields()).(logoutResponse :=
                if erl != 2 then LOGOUT_RECOVERY_UNSUPPORTED
                else if cid == cmd.logoutCid then LOGOUT_CLEANUP_FAILED
                else old(cmd.logoutResponse))
      ensures Fields() == old(Fields()).(responseQueue := old(responseQueue) + [QueueEntry(cmd, cmd.iState)])
      ensures old(cmd.logoutResponse) == LOGOUT_SUCCESS ==>
        cmd.logoutResponse == Logout.HandlerResponse(REMOVE_FOR_RECOVERY, cid == cmd.logoutCid, true, erl)
    {
      if erl != 2 {
        cmd.logoutResponse := LOGOUT_RECOVERY_UNSUPPORTED;
      } else if cid == cmd.logoutCid {
        cmd.logoutResponse := LOGOUT_CLEANUP_FAILED;
      }
      responseQueue := responseQueue + [QueueEntry(cmd, cmd.iState)];
      rc := 0;
    }
  }

  /** The state a session logout leaves a connection in: LOGGED_IN becomes IN_LOGOUT. */
  function LogoutState(s: ConnState): (t: ConnState)
    ensures t == InLogout || t == s
    ensures t == InLogout <==> s == LoggedIn || s == InLogout
  {
    if s == LoggedIn then InLogout else s
  }

  /**
   * Where the walk of iscsit_build_conn_drop_async_message over the
   * session's connections (in states `states`) stops: at the first
   * LOGGED_IN connection, or past the end, at the list head, when there is
   * none.
   */
  function FirstLoggedIn(states: seq<ConnState>): (i: nat)
    ensures i <= |states|
    ensures forall k :: 0 <= k < i ==> states[k] != LoggedIn
    ensures i < |states| ==> states[i] == LoggedIn
  {
    if |states| == 0 then 0
    else if states[0] == LoggedIn then 0
    else 1 + FirstLoggedIn(states[1..])
  }

  /**
   * The connection the Connection Dropped Async Message is queued on. As
   * written (`fixed` false) the `!conn_p` test never holds, because the
   * list walk leaves its cursor at the list head rather than at NULL, so
   * some position is always chosen; corrected, no connection is chosen
   * when none is LOGGED_IN.
   */
  function DropAsyncTarget(states: seq<ConnState>, fixed: bool): (r: Option<nat>)
    ensures !fixed ==> r.Some?
  {
    var i := FirstLoggedIn(states);
    if fixed && i == |states| then None else Some(i)
  }

  /**
   * The corrected choice is the first LOGGED_IN connection, and there is
   * one exactly when some connection is LOGGED_IN.
   */
  lemma DropAsyncTargetFirstLoggedIn(states: seq<ConnState>)
    ensures var r := DropAsyncTarget(states, true);
      && (r.Some? <==> exists k :: 0 <= k < |states| && states[k] == LoggedIn)
      && (r.Some? ==> r.value < |states| && states[r.value] == LoggedIn
                      && forall k :: 0 <= k < r.value ==> states[k] != LoggedIn)
  {
  }

  /**
   * As written, when no connection left on the session's list is LOGGED_IN
   * (the failed one is off the list by then, so this includes a session
   * that had only the failed connection), the message is queued at a
   * position past the end of the list, which is no connection at all; the
   * corrected code sends nothing.
   */
  lemma DropAsyncWithoutLoggedInConn(states: seq<ConnState>)
    requires forall k :: 0 <= k < |states| ==> states[k] != LoggedIn
    ensures DropAsyncTarget(states, false) == Some(|states|)
    ensures DropAsyncTarget(states, true) == None
  {
  }

  lemma {:induction false} FirstLoggedInUnique(states: seq<ConnState>, i: nat)
    requires i <= |states| && (i < |states| ==> states[i] == LoggedIn)
    requires forall k :: 0 <= k < i ==> states[k] != LoggedIn
    ensures FirstLoggedIn(states) == i
    decreases i
  {
    if i > 0 {
      FirstLoggedInUnique(states[1..], i - 1);
    }
  }

  /** The states of the connections `cs`. */
  ghost function StatesOf(cs: seq<Conn>): (states: seq<ConnState>)
    reads cs
    ensures |states| == |cs| && forall j :: 0 <= j < |cs| ==> states[j] == cs[j].state
  {
    seq(|cs|, j requires 0 <= j < |cs| reads cs => cs[j].state)
  }

  /**
   * The walk of iscsit_logout_closesession over the session's connections:
   * every LOGGED_IN one moves to IN_LOGOUT, nothing else changes.
   */
  method LogoutAll(cs: seq<Conn>)
    requires Distinct(cs)
    modifies cs
    ensures forall j :: 0 <= j < |cs| ==>
      cs[j].Fields() == old(cs[j].Fields()).(state := LogoutState(old(cs[j].state)))
  {
    var i := 0;
    while i < |cs|
      invariant 0 <= i <= |cs|
      invariant forall j :: 0 <= j < i ==> cs[j].Fields() == old(cs[j].Fields()).(state := LogoutState(old(cs[j].state)))
      invariant forall j :: i <= j < |cs| ==> cs[j].Fields() == old(cs[j].Fields())
    {
      var c := cs[i];
      if c.state == LoggedIn {
        c.EnterLogout();
      }
      i := i + 1;
    }
  }

  /** The fields of a session the model follows. */
  datatype SessFields = SessFields(targXferTag: u32, conns: seq<Conn>, sessionLogout: bool)

  class Session {
    const ops: SessOps

    var targXferTag: u32     // targ_xfer_tag: the next Target Transfer Tag
    var conns: seq<Conn>     // sess_conn_list
    var sessionLogout: bool  // session_logout

    ghost function Fields(): SessFields
      reads this
    {
      SessFields(targXferTag, conns, sessionLogout)
    }

    constructor (ops: SessOps, targXferTag: u32, conns: seq<Conn>)
      ensures this.ops == ops
      ensures Fields() == SessFields(targXferTag, conns, false)
    {
      this.ops := ops;
      this.targXferTag := targXferTag;
      this.conns := conns;
      sessionLogout := false;
    }

    /**
     * `ttt = sess->targ_xfer_tag++`, taken again when it is the reserved
     * 0xffffffff: the tag and the counter afterwards are TttAlloc's.
     */
    method AllocTtt() returns (ttt: u32)
      modifies this
      ensures (ttt, targXferTag) == TttAlloc(old(targXferTag))
      ensures Fields() == old(Fields()).(targXferTag := targXferTag)
    {
      ttt := targXferTag;
      targXferTag := Inc32(targXferTag);
      if ttt == RESERVED_TAG {
        ttt := targXferTag;
        targXferTag := Inc32(targXferTag);
      }
    }

    /**
     * The command iscsit_handle_scsi_cmd allocates for an accepted header
     * with ITT `itt`: a new command with the header's expected length and
     * the verdict's direction and data flags, ICF_NON_IMMEDIATE_UNSOLICITED_DATA
     * when unsolicited data follows, and as TTT a fresh tag for a READ,
     * the reserved tag for a WRITE and 0 otherwise.
     */
    method NewScsiCmd(h: ScsiCmd.ScsiCmdHdr, itt: u32, v: ScsiCmd.HdrVerdict) returns (cmd: Cmd)
      requires v.Accept?
      modifies this
      ensures fresh(cmd)
      ensures cmd.dataLength == h.dataLength && cmd.direction == v.direction
      ensures cmd.immediateData == v.immediateData && cmd.unsolicitedData == v.unsolicitedData
      ensures var ttt := if v.read then TttAlloc(old(targXferTag)).0 else if v.write then RESERVED_TAG else 0;
        cmd.Fields() == CmdFields(itt, ttt, NewCmd, 0, if v.unsolicitedData then {NonImmediateUnsolicitedData} else {},
                                  0, R2tState(0, 0, 0, [], []), LOGOUT_SUCCESS, None, 0)
      ensures Fields() == old(Fields()).(targXferTag := if v.read then TttAlloc(old(targXferTag)).1 else old(targXferTag))
    {
      var ttt := 0;
      if v.read {
        ttt := AllocTtt();
      } else if v.write {
        ttt := RESERVED_TAG;
      }
      var flags := if v.unsolicitedData then {NonImmediateUnsolicitedData} else {};
      cmd := new Cmd(itt, ttt, h.dataLength, v.direction, v.immediateData, v.unsolicitedData, 0, 0, flags);
    }

    /**
     * iscsit_build_conn_drop_async_message for the failed connection
     * `failed`, already taken off the session's list: a new command for
     * the Async Message, carrying the failed connection's CID, is added to
     * the first LOGGED_IN connection's command list and response queue;
     * with no such connection nothing is sent (the corrected test).
     */
    method BuildConnDropAsyncMessage(failed: Conn) returns (target: Option<Conn>, cmd: Option<Cmd>)
      requires Distinct(conns)
      modifies conns
      ensures var r := DropAsyncTarget(old(StatesOf(conns)), true);
        && (r.None? <==> target.None?)
        && (r.None? ==> cmd.None? && forall j :: 0 <= j < |conns| ==> conns[j].Fields() == old(conns[j].Fields()))
        && (r.Some? ==>
              && target == Some(conns[r.value]) && cmd.Some? && fresh(cmd.value)
              && cmd.value.logoutCid == failed.cid
              && cmd.value.Fields() == CmdFields(0, 0, SendAsyncMsg, 0, {}, 0, R2tState(0, 0, 0, [], []),
                                                 LOGOUT_SUCCESS, None, 0)
              && conns[r.value].Fields() == old(conns[r.value].Fields()).(
                   cmds := old(conns[r.value].cmds) + [cmd.value],
                   responseQueue := old(conns[r.value].responseQueue) + [QueueEntry(cmd.value, SendAsyncMsg)])
              && forall j :: 0 <= j < |conns| && j != r.value ==> conns[j].Fields() == old(conns[j].Fields()))
    {
      ghost var states := StatesOf(conns);
      var i := 0;
      while i < |conns| && conns[i].state != LoggedIn
        invariant 0 <= i <= |conns|
        invariant forall k :: 0 <= k < i ==> states[k] != LoggedIn
      {
        i := i + 1;
      }
      assert i == FirstLoggedIn(states) by {
        FirstLoggedInUnique(states, i);
      }
      if i == |conns| {
        return None, None;
      }
      var c := conns[i];
      var ac := new Cmd(0, 0, 0, DmaNone, false, false, failed.cid, 0, {});
      ac.iState := SendAsyncMsg;
      c.AddCmd(ac);
      target, cmd := Some(c), Some(ac);
    }

    /**
     * iscsit_logout_closesession: the session is marked as logging out,
     * the connection the request came on is marked for removal, every
     * LOGGED_IN connection moves to IN_LOGOUT and no other changes state,
     * and the command is queued for its response on `conn`.
     */
    method LogoutCloseSession(conn: Conn, cmd: Cmd) returns (rc: int)
      requires conn in conns && Distinct(conns)
      modifies this, conns
      ensures rc == 0
      ensures Fields() == old(Fields()).(sessionLogout := true)
      ensures forall j :: 0 <= j < |conns| && conns[j] != conn ==>
        conns[j].Fields() == old(conns[j].Fields()).(state := LogoutState(old(conns[j].state)))
      ensures conn.Fields() == old(conn.Fields()).(state := LogoutState(old(conn.state)), logoutRemove := true,
                                                  logoutReason := CLOSE_SESSION,
                                                  responseQueue := old(conn.responseQueue) + [QueueEntry(cmd, cmd.iState)])
    {
      sessionLogout := true;
      LogoutAll(conns);
      conn.logoutRemove := true;
      conn.logoutReason := CLOSE_SESSION;
      conn.responseQueue := conn.responseQueue + [QueueEntry(cmd, cmd.iState)];
      rc := 0;
    }
  }
}
