/**
 * The header checks of a SCSI Command PDU (section 10.3 of RFC 3720) made
 * by iscsit_handle_scsi_cmd before a command is allocated, and the fields
 * of the new command derived from the header.
 */
module ScsiCmd {
  import opened Common
  import opened IscsiTypes

  /** Maximum DataSegmentLength: a 24-bit field. */
  const MAX_DSL: nat := 0x100_0000

  /** The parts of a SCSI Command header the checks read. */
  datatype ScsiCmdHdr = ScsiCmdHdr(
    read: bool,          // R bit
    write: bool,         // W bit
    final: bool,         // F bit
    immediate: bool,     // I bit of the opcode byte
    cdb0: u8,            // operation code of the CDB
    dataLength: u32,     // Expected Data Transfer Length
    payloadLength: nat)  // DataSegmentLength

  predicate WellFormedHdr(h: ScsiCmdHdr) {
    h.payloadLength < MAX_DSL
  }

  /**
   * A reject sent for a header: every one of these rejects fails the
   * connection.
   */
  datatype HdrVerdict =
    | Reject(reason: RejectReason)
    | Accept(read: bool, write: bool, direction: DataDirection, immediateData: bool, unsolicitedData: bool)

  /** RESERVE(6) and RELEASE(6), whose R and W bits some initiators set wrongly. */
  predicate IsReserveRelease(cdb0: u8) {
    cdb0 == 0x16 || cdb0 == 0x17
  }

  /** The R and W bits are cleared for RESERVE/RELEASE with an EDTL of 0. */
  predicate ClearsReadWrite(h: ScsiCmdHdr) {
    (h.read || h.write) && h.dataLength == 0 && IsReserveRelease(h.cdb0)
  }

  function EffRead(h: ScsiCmdHdr): bool { h.read && !ClearsReadWrite(h) }
  function EffWrite(h: ScsiCmdHdr): bool { h.write && !ClearsReadWrite(h) }

  /**
   * iscsit_handle_scsi_cmd up to the allocation of the command: the checks
   * in the order the source makes them, each with its reject reason, and
   * for an accepted header the data direction, and whether immediate and
   * unsolicited data follow.
   */
  function CheckScsiCmd(h: ScsiCmdHdr, sessOps: SessOps, connOps: ConnOps): (v: HdrVerdict)
    requires WellFormedHdr(h)
    ensures v.Accept? ==> v.read == EffRead(h) && v.write == EffWrite(h)
    ensures v.Accept? ==> v.direction == (if v.write then DmaToDevice else if v.read then DmaFromDevice else DmaNone)
    ensures v.Accept? ==> (v.immediateData <==> h.payloadLength != 0)
    ensures v.Accept? ==> (v.unsolicitedData <==> v.write && !h.final)
  {
    var r := EffRead(h);
    var w := EffWrite(h);
    if !h.write && !h.final then Reject(BookmarkInvalid)
    else if (h.read || h.write) && h.dataLength == 0 && !IsReserveRelease(h.cdb0) then Reject(BookmarkInvalid)
    else if !r && !w && h.dataLength != 0 then Reject(BookmarkInvalid)
    else if r && w then Reject(BookmarkInvalid)
    else if h.immediate then Reject(BookmarkInvalid)
    else if h.payloadLength != 0 && !sessOps.immediateData then Reject(ProtocolError)
    else if h.dataLength == h.payloadLength && !h.final then Reject(ProtocolError)
    else if h.payloadLength > h.dataLength then Reject(ProtocolError)
    else if h.payloadLength > connOps.maxRecvDataSegmentLength then Reject(ProtocolError)
    else if h.payloadLength > sessOps.firstBurstLength then Reject(BookmarkInvalid)
    else
      var dir := if w then DmaToDevice else if r then DmaFromDevice else DmaNone;
      Accept(r, w, dir, h.payloadLength != 0, !h.final && w)
  }

  /**
   * The rules a SCSI Command header breaks, stated without regard to the
   * order of the checks; R and W are taken after the RESERVE/RELEASE
   * exception, except in the first rule, which reads the W bit as sent.
   */
  predicate Violates(h: ScsiCmdHdr, sessOps: SessOps, connOps: ConnOps) {
    || (!h.write && !h.final)
    || ((h.read || h.write) && h.dataLength == 0 && !IsReserveRelease(h.cdb0))
    || (!EffRead(h) && !EffWrite(h) && h.dataLength != 0)
    || (EffRead(h) && EffWrite(h))
    || h.immediate
    || (h.payloadLength != 0 && !sessOps.immediateData)
    || (h.dataLength == h.payloadLength && !h.final)
    || h.payloadLength > h.dataLength
    || h.payloadLength > connOps.maxRecvDataSegmentLength
    || h.payloadLength > sessOps.firstBurstLength
  }

  /** A header is rejected exactly when it breaks one of the rules. */
  lemma RejectIffViolates(h: ScsiCmdHdr, sessOps: SessOps, connOps: ConnOps)
    requires WellFormedHdr(h)
    ensures CheckScsiCmd(h, sessOps, connOps).Reject? <==> Violates(h, sessOps, connOps)
  {
  }

  /**
   * The reason of a reject: a protocol error for the data segment rules
   * that come after the flag rules, a bookmark-invalid otherwise.
   */
  lemma RejectReasons(h: ScsiCmdHdr, sessOps: SessOps, connOps: ConnOps)
    requires WellFormedHdr(h)
    ensures var v := CheckScsiCmd(h, sessOps, connOps);
      && (v.Reject? ==> v.reason in {BookmarkInvalid, ProtocolError})
      && (v == Reject(ProtocolError) <==>
            && !((!h.write && !h.final)
                 || ((h.read || h.write) && h.dataLength == 0 && !IsReserveRelease(h.cdb0))
                 || (!EffRead(h) && !EffWrite(h) && h.dataLength != 0)
                 || (EffRead(h) && EffWrite(h))
                 || h.immediate)
            && ((h.payloadLength != 0 && !sessOps.immediateData)
                || (h.dataLength == h.payloadLength && !h.final)
                || h.payloadLength > h.dataLength
                || h.payloadLength > connOps.maxRecvDataSegmentLength))
  {
  }

  /**
   * What an accepted command guarantees: a single data direction, none
   * exactly when no data is expected, immediate data that fits the
   * expected length and both negotiated limits, and unsolicited Data-Out
   * to follow only when the immediate data does not complete the transfer.
   */
  lemma AcceptedCommand(h: ScsiCmdHdr, sessOps: SessOps, connOps: ConnOps)
    requires WellFormedHdr(h)
    requires CheckScsiCmd(h, sessOps, connOps).Accept?
    ensures var v := CheckScsiCmd(h, sessOps, connOps);
      && !(v.read && v.write)
      && (v.direction == DmaNone <==> h.dataLength == 0)
      && h.payloadLength <= h.dataLength
      && h.payloadLength <= connOps.maxRecvDataSegmentLength
      && h.payloadLength <= sessOps.firstBurstLength
      && (h.payloadLength != 0 ==> sessOps.immediateData)
      && (v.unsolicitedData ==> h.payloadLength < h.dataLength)
      && !h.immediate
  {
  }

  /**
   * RESERVE and RELEASE with R or W set and no data are accepted as
   * commands without data, provided the F bit is set and nothing else is
   * wrong; any other CDB with those bits and no data is rejected.
   */
  lemma ReserveReleaseException(h: ScsiCmdHdr, sessOps: SessOps, connOps: ConnOps)
    requires WellFormedHdr(h)
    requires (h.read || h.write) && h.dataLength == 0
    ensures !IsReserveRelease(h.cdb0) ==> CheckScsiCmd(h, sessOps, connOps) == Reject(BookmarkInvalid)
    ensures IsReserveRelease(h.cdb0) && h.final && !h.immediate && h.payloadLength == 0 ==>
              CheckScsiCmd(h, sessOps, connOps) == Accept(false, false, DmaNone, false, false)
  {
  }
}
