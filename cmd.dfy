/**
 * A command of an iSCSI connection (struct iscsi_cmd) with the counters the
 * target updates in place, and iscsit_build_r2ts_for_cmd, which queues the
 * R2Ts of a WRITE.
 */
module TargetCmd {
  import opened Common
  import opened IscsiTypes
  import opened R2tPlan

  /** The bits of `cmd_flags` the model follows. */
  datatype CmdFlag = GotLastDataOut | SentLastR2T | NonImmediateUnsolicitedData | RejectFailConn

  /**
   * The R2T bookkeeping of a command, which the target updates under
   * `r2t_lock`: `r2t_offset`, `outstanding_r2ts`, `seq_send_order`, the R2T
   * list, and the Target Transfer Tags of the R2Ts at the head of the list
   * that were sent (their `sent_r2t` is set), in list order: R2T `k` went
   * out with `tags[k]`.
   */
  datatype R2tState = R2tState(offset: u32, outstanding: u32, sendOrder: u32, queued: seq<R2T>, tags: seq<u32>)

  /** The fields of a command that change after it is allocated. */
  datatype CmdFields = CmdFields(
    initTaskTag: u32,
    targXferTag: u32,
    iState: CmdState,
    statSn: u32,
    flags: set<CmdFlag>,
    writeDataDone: u32,
    r2t: R2tState,
    logoutResponse: nat,
    rejectReason: Option<RejectReason>,
    txSize: nat)

  /** The room left for R2Ts under MaxOutstandingR2T. */
  function Budget(outstanding: u32, maxOutstanding: u32): (b: nat)
    ensures outstanding + b == maxOutstanding || (b == 0 && outstanding >= maxOutstanding)
  {
    if outstanding < maxOutstanding then maxOutstanding - outstanding else 0
  }

  /**
   * Where sequence-order R2Ts start: a call that is not a connection
   * recovery (type 2) first raises `r2t_offset` to `write_data_done`.
   */
  function StartOffset(r2tOffset: u32, writeDataDone: u32, rtype: int): (o: u32)
    ensures rtype != 2 ==> o >= writeDataDone && o >= r2tOffset && (o == r2tOffset || o == writeDataDone)
    ensures rtype == 2 ==> o == r2tOffset
  {
    if rtype != 2 && r2tOffset < writeDataDone then writeDataDone else r2tOffset
  }

  /**
   * The longest first R2T of a call: the rest of the current burst for a
   * connection recovery (an unsigned 32-bit difference), a whole burst
   * otherwise.
   */
  function FirstBurst(maxBurst: u32, nextBurstLen: u32, rtype: int): (b: u32)
    ensures rtype != 2 ==> b == maxBurst
    ensures rtype == 2 && nextBurstLen <= maxBurst ==> b == maxBurst - nextBurstLen
  {
    if rtype == 2 then (maxBurst - nextBurstLen) % U32_MOD else maxBurst
  }

  /** What a call of iscsit_build_r2ts_for_cmd leaves behind and returns. */
  datatype R2tOutcome = R2tOutcome(r2t: R2tState, sentLast: bool, rc: int)

  /** The bookkeeping after a call queued `r2ts`. */
  function Queue(st: R2tState, r2ts: seq<R2T>, maxOutstanding: u32): (s: R2tState)
    requires |r2ts| <= Budget(st.outstanding, maxOutstanding)
    ensures s.outstanding == st.outstanding + |r2ts| && s.queued == st.queued + r2ts
    ensures s.offset == st.offset && s.sendOrder == st.sendOrder && s.tags == st.tags
  {
    st.(outstanding := st.outstanding + |r2ts|, queued := st.queued + r2ts)
  }

  /**
   * What iscsit_build_r2ts_for_cmd makes of a command's R2T bookkeeping,
   * whether ICF_SENT_LAST_R2T is set afterwards, and its return value.
   * In sequence order the R2Ts are those of InOrderPlan from StartOffset,
   * the first at most FirstBurst long, and `r2t_offset` is left where the
   * plan ends; out of sequence order they are those of OutOfOrderPlan for
   * the successive answers `lookups` of the sequence-holder lookup, and a
   * failed lookup returns -1.
   */
  function BuildR2TsSpec(st: R2tState, sentLast: bool, dataLength: u32, writeDataDone: u32,
                         nextBurstLen: u32, seqCount: u32, ops: SessOps, rtype: int,
                         lookups: seq<Option<SeqHolder>>): (r: R2tOutcome)
    ensures sentLast ==> r == R2tOutcome(st, true, 0)
    ensures !sentLast && r.sentLast ==> |r.r2t.queued| > |st.queued|
    ensures st.outstanding <= ops.maxOutstandingR2T ==> r.r2t.outstanding <= ops.maxOutstandingR2T
    ensures r.r2t.outstanding - st.outstanding == |r.r2t.queued| - |st.queued| >= 0
    ensures r.r2t.queued[..|st.queued|] == st.queued
    ensures r.rc in {0, -1} && (r.rc == -1 ==> !ops.dataSequenceInOrder)
  {
    var budget := Budget(st.outstanding, ops.maxOutstandingR2T);
    if sentLast then R2tOutcome(st, true, 0)
    else if ops.dataSequenceInOrder then
      var p := InOrderPlan(StartOffset(st.offset, writeDataDone, rtype), dataLength,
                           FirstBurst(ops.maxBurstLength, nextBurstLen, rtype), ops.maxBurstLength, budget, true);
      R2tOutcome(Queue(st, p.r2ts, ops.maxOutstandingR2T).(offset := p.offset), p.last, 0)
    else
      var p := OutOfOrderPlan(lookups, seqCount, st.sendOrder, budget);
      R2tOutcome(Queue(st, p.r2ts, ops.maxOutstandingR2T).(sendOrder := p.sendOrder), p.last,
                 if p.failed then -1 else 0)
  }

  /**
   * In sequence order one call queues, after the R2Ts already queued,
   * R2Ts that start at StartOffset and follow one another without gap,
   * none past the data length and none longer than a burst (the first no
   * longer than FirstBurst); `r2t_offset` is left where they end, and
   * ICF_SENT_LAST_R2T is set exactly when that is the data length.
   */
  lemma BuildR2TsInOrder(st: R2tState, dataLength: u32, writeDataDone: u32, nextBurstLen: u32,
                         seqCount: u32, ops: SessOps, rtype: int, lookups: seq<Option<SeqHolder>>)
    requires ops.dataSequenceInOrder
    requires StartOffset(st.offset, writeDataDone, rtype) <= dataLength
    ensures var r := BuildR2TsSpec(st, false, dataLength, writeDataDone, nextBurstLen, seqCount, ops, rtype, lookups);
      var start := StartOffset(st.offset, writeDataDone, rtype);
      var added := r.r2t.queued[|st.queued|..];
      && Contiguous(start, added)
      && r.r2t.offset == EndOf(start, added)
      && start <= r.r2t.offset <= dataLength
      && (r.sentLast <==> |added| > 0 && r.r2t.offset == dataLength)
      && (forall k :: 0 <= k < |added| ==> added[k].offset + added[k].xferLen <= dataLength)
      && (|added| > 0 ==> added[0].xferLen <= FirstBurst(ops.maxBurstLength, nextBurstLen, rtype))
      && (forall k :: 0 < k < |added| ==> added[k].xferLen <= ops.maxBurstLength)
  {
    var start := StartOffset(st.offset, writeDataDone, rtype);
    var burst := FirstBurst(ops.maxBurstLength, nextBurstLen, rtype);
    var budget := Budget(st.outstanding, ops.maxOutstandingR2T);
    var p := InOrderPlan(start, dataLength, burst, ops.maxBurstLength, budget, true);
    var r := BuildR2TsSpec(st, false, dataLength, writeDataDone, nextBurstLen, seqCount, ops, rtype, lookups);
    InOrderPlanContiguous(start, dataLength, burst, ops.maxBurstLength, budget);
    InOrderPlanBounded(start, dataLength, burst, ops.maxBurstLength, budget);
    assert r.r2t.queued[|st.queued|..] == p.r2ts;
  }

  /**
   * Out of sequence order one call queues, after the R2Ts already queued,
   * one R2T per sequence handed out, in the order handed out, and a
   * failed lookup leaves ICF_SENT_LAST_R2T clear and returns -1.
   */
  lemma BuildR2TsOutOfOrder(st: R2tState, dataLength: u32, writeDataDone: u32, nextBurstLen: u32,
                            seqCount: u32, ops: SessOps, rtype: int, lookups: seq<Option<SeqHolder>>)
    requires !ops.dataSequenceInOrder
    ensures var r := BuildR2TsSpec(st, false, dataLength, writeDataDone, nextBurstLen, seqCount, ops, rtype, lookups);
      var added := r.r2t.queued[|st.queued|..];
      && r.r2t.offset == st.offset
      && (forall k :: 0 <= k < |added| ==>
            lookups[k].Some? && added[k] == R2T(lookups[k].value.offset, lookups[k].value.xferLen))
      && (r.rc == -1 ==> !r.sentLast)
      && (r.sentLast ==> r.r2t.sendOrder == seqCount)
  {
    var budget := Budget(st.outstanding, ops.maxOutstandingR2T);
    OutOfOrderPlanFollowsLookups(lookups, seqCount, st.sendOrder, budget);
    OutOfOrderPlanLast(lookups, seqCount, st.sendOrder, budget);
    var p := OutOfOrderPlan(lookups, seqCount, st.sendOrder, budget);
    var r := BuildR2TsSpec(st, false, dataLength, writeDataDone, nextBurstLen, seqCount, ops, rtype, lookups);
    assert r.r2t.queued[|st.queued|..] == p.r2ts;
  }

  class Cmd {
    // Fixed when the command is allocated.
    const dataLength: u32
    const direction: DataDirection
    const immediateData: bool
    const unsolicitedData: bool
    const logoutCid: nat
    const logoutReason: nat

    // Updated in place.
    var initTaskTag: u32
    var targXferTag: u32
    var iState: CmdState
    var statSn: u32
    var flags: set<CmdFlag>
    var writeDataDone: u32
    var r2t: R2tState
    var logoutResponse: nat
    var rejectReason: Option<RejectReason>
    var txSize: nat

    ghost function Fields(): CmdFields
      reads this
    {
      CmdFields(initTaskTag, targXferTag, iState, statSn, flags, writeDataDone, r2t, logoutResponse, rejectReason, txSize)
    }

    /** `cmd->i_state = ISTATE_REMOVE`: the command is to be freed. */
    method MarkRemoved()
      modifies this
      ensures Fields() == old(Fields()).(iState := Remove)
    {
      iState := Remove;
    }


    /**
     * A command as iscsit_allocate_cmd zeroes it and its handler fills in
     * the header fields: state, counters and the R2T list start empty.
     */
    constructor (initTaskTag: u32, targXferTag: u32, dataLength: u32, direction: DataDirection,
                 immediateData: bool, unsolicitedData: bool, logoutCid: nat, logoutReason: nat, flags: set<CmdFlag>)
      ensures this.dataLength == dataLength && this.direction == direction
      ensures this.immediateData == immediateData && this.unsolicitedData == unsolicitedData
      ensures this.logoutCid == logoutCid && this.logoutReason == logoutReason
      ensures Fields() == CmdFields(initTaskTag, targXferTag, NewCmd, 0, flags, 0, R2tState(0, 0, 0, [], []),
                                    LOGOUT_SUCCESS, None, 0)
    {
      this.initTaskTag := initTaskTag;
      this.targXferTag := targXferTag;
      this.dataLength := dataLength;
      this.direction := direction;
      this.immediateData := immediateData;
      this.unsolicitedData := unsolicitedData;
      this.logoutCid := logoutCid;
      this.logoutReason := logoutReason;
      iState := NewCmd;
      statSn := 0;
      this.flags := flags;
      writeDataDone := 0;
      r2t := R2tState(0, 0, 0, [], []);
      logoutResponse := LOGOUT_SUCCESS;
      rejectReason := None;
      txSize := 0;
    }

    /**
     * iscsit_build_r2ts_for_cmd for a call of type `rtype` (2 for a
     * connection recovery), with `lookups` the successive answers of the
     * sequence-holder lookup; `nextBurstLen` and `seqCount` are the
     * command's `next_burst_len` and `seq_count`, which the Data-Out
     * sequence code maintains. It changes the R2T bookkeeping and
     * ICF_SENT_LAST_R2T as BuildR2TsSpec says, and nothing else.
     */
    method BuildR2Ts(ops: SessOps, rtype: int, nextBurstLen: u32, seqCount: u32, lookups: seq<Option<SeqHolder>>)
      returns (rc: int)
      modifies this
      ensures var r := BuildR2TsSpec(old(r2t), SentLastR2T in old(flags), dataLength, old(writeDataDone),
                                     nextBurstLen, seqCount, ops, rtype, lookups);
        && rc == r.rc
        && Fields() == old(Fields()).(r2t := r.r2t, flags := if r.sentLast then old(flags) + {SentLastR2T} else old(flags))
    {
      if SentLastR2T in flags {
        return 0;
      }
      var st := r2t;
      if ops.dataSequenceInOrder {
        var start := if rtype != 2 && st.offset < writeDataDone then writeDataDone else st.offset;
        var offset, queued, last := RequestInOrder(start, st.outstanding, ops.maxOutstandingR2T, ops.maxBurstLength,
                                                   FirstBurst(ops.maxBurstLength, nextBurstLen, rtype));
        r2t := Queue(st, queued, ops.maxOutstandingR2T).(offset := offset);
        if last {
          flags := flags + {SentLastR2T};
        }
        rc := 0;
      } else {
        var sendOrder, queued, last, failed := RequestOutOfOrder(seqCount, st.sendOrder, st.outstanding, ops.maxOutstandingR2T, lookups);
        r2t := Queue(st, queued, ops.maxOutstandingR2T).(sendOrder := sendOrder);
        if last {
          flags := flags + {SentLastR2T};
        }
        rc := if failed then -1 else 0;
      }
    }

    /**
     * The loop of iscsit_build_r2ts_for_cmd in sequence order, from
     * `r2t_offset` `start` with `outstanding` R2Ts out: the offset reached,
     * the R2Ts queued and whether the last one was among them. The length
     * of each R2T compares `offset + burst` with the data length exactly
     * (R2tPastDataLength shows what the 32-bit sum does).
     */
    method RequestInOrder(start: u32, outstanding: u32, maxOutstanding: u32, maxBurst: u32, burst: u32)
      returns (offset: u32, queued: seq<R2T>, last: bool)
      ensures Plan(queued, offset, last)
              == InOrderPlan(start, dataLength, burst, maxBurst, Budget(outstanding, maxOutstanding), true)
    {
      ghost var plan := InOrderPlan(start, dataLength, burst, maxBurst, Budget(outstanding, maxOutstanding), true);
      offset := start;
      queued := [];
      last := false;
      var count: u32 := outstanding;
      var b := burst;
      while count < maxOutstanding
        invariant count == outstanding + |queued|
        invariant var q := InOrderPlan(offset, dataLength, b, maxBurst, Budget(count, maxOutstanding), true);
          plan == Plan(queued + q.r2ts, q.offset, q.last)
        decreases maxOutstanding - count
      {
        var from := offset;
        var xferLen := XferLen(from, b, dataLength, true);
        var next: u32 := (from + xferLen) % U32_MOD;
        ghost var budget := Budget(count, maxOutstanding);
        InOrderPlanStep(queued, from, dataLength, b, maxBurst, budget, true, xferLen, next);
        offset := next;
        count := count + 1;
        b := maxBurst;
        queued := queued + [R2T(from, xferLen)];
        if offset == dataLength {
          last := true;
          break;
        }
        assert Budget(count, maxOutstanding) == budget - 1;
      }
    }

    /**
     * The loop of iscsit_build_r2ts_for_cmd out of sequence order, from
     * `seq_send_order` `sendOrder0` with `outstanding` R2Ts out: the send
     * order reached, the R2Ts queued, whether the last sequence was among
     * them, and whether a lookup failed (running out of `lookups` counts as
     * a failed lookup).
     */
    method RequestOutOfOrder(seqCount: u32, sendOrder0: u32, outstanding: u32, maxOutstanding: u32, lookups: seq<Option<SeqHolder>>)
      returns (sendOrder: u32, queued: seq<R2T>, last: bool, failed: bool)
      ensures SeqPlan(queued, last, failed, sendOrder)
              == OutOfOrderPlan(lookups, seqCount, sendOrder0, Budget(outstanding, maxOutstanding))
    {
      ghost var plan := OutOfOrderPlan(lookups, seqCount, sendOrder0, Budget(outstanding, maxOutstanding));
      sendOrder := sendOrder0;
      queued := [];
      last := false;
      failed := false;
      var count: u32 := outstanding;
      var i := 0;
      while count < maxOutstanding
        invariant 0 <= i <= |lookups| && i == |queued|
        invariant count == outstanding + |queued|
        invariant var q := OutOfOrderPlan(lookups[i..], seqCount, sendOrder, Budget(count, maxOutstanding));
          plan == SeqPlan(queued + q.r2ts, q.last, q.failed, q.sendOrder)
        decreases maxOutstanding - count
      {
        if i == |lookups| || lookups[i].None? {
          failed := true;
          return;
        }
        var holder := lookups[i].value;
        ghost var budget := Budget(count, maxOutstanding);
        OutOfOrderPlanStep(queued, lookups[i..], seqCount, sendOrder, budget);
        assert lookups[i..][1..] == lookups[i + 1..];
        i := i + 1;
        sendOrder := holder.sendOrder;
        count := count + 1;
        queued := queued + [R2T(holder.offset, holder.xferLen)];
        if sendOrder == seqCount {
          last := true;
          break;
        }
        assert Budget(count, maxOutstanding) == budget - 1;
      }
    }
  }
}
