/**
 * The checks iscsit_handle_data_out makes on a SCSI Data-Out PDU (section
 * 10.7 of RFC 3720) before it receives the payload, and the number of bytes
 * it then reads for the data segment.
 */
module DataOut {
  import opened Common
  import opened IscsiTypes

  /** The parts of the command a Data-Out is for that the checks read. */
  datatype CmdView = CmdView(
    gotLastDataOut: bool,   // ICF_GOT_LAST_DATAOUT
    direction: DataDirection,
    dataLength: u32,
    unsolicitedData: bool,
    supportedOpcode: bool,  // SCF_SUPPORTED_SAM_OPCODE
    failed: bool,           // SCF_SE_CMD_FAILED
    aborted: bool)          // t_transport_aborted

  /** What becomes of a Data-Out PDU. */
  datatype DataOutVerdict =
    | Reject(reason: RejectReason)  // a reject that fails the connection
    | NoCommand                     // no command with the ITT: the payload is dumped
    | Dump                          // the payload is read and dropped
    | FailConnection                // CHECK CONDITION and -1: the connection fails
    | Proceed                       // on to the DataSN and sequence checks

  /**
   * `offset + length > data_length`. As written (`fixed` false) the sum is
   * an unsigned 32-bit one and wraps; `fixed` compares the true sum.
   */
  predicate EndsPastData(offset: u32, length: nat, dataLength: u32, fixed: bool) {
    if fixed then offset + length > dataLength else (offset + length) % U32_MOD > dataLength
  }

  /**
   * The payload of an otherwise acceptable Data-Out is dropped: unsolicited
   * data for an unsupported opcode or a command that failed in the core,
   * solicited data for a command the core has aborted.
   */
  predicate DropsPayload(c: CmdView) {
    if c.unsolicitedData then !c.supportedOpcode || c.failed else c.aborted
  }

  /**
   * The checks of iscsit_handle_data_out in the order the source makes them,
   * for a PDU of `length` bytes at `offset`; `cmd` is the command found by
   * its ITT. With `fixed` false this is the code as written.
   */
  function CheckDataOut(length: nat, offset: u32, mrdsl: u32, initialR2T: bool,
                        cmd: Option<CmdView>, fixed: bool): (v: DataOutVerdict)
    requires length < 0x100_0000
    ensures v == Reject(ProtocolError) <==>
              || length == 0 || length > mrdsl
              || (cmd.Some? && !cmd.value.gotLastDataOut && cmd.value.direction != DmaToDevice)
    ensures v == NoCommand <==> 0 < length <= mrdsl && cmd.None?
    ensures v == Reject(BookmarkInvalid) <==>
              && 0 < length <= mrdsl && cmd.Some? && !cmd.value.gotLastDataOut
              && cmd.value.direction == DmaToDevice
              && EndsPastData(offset, length, cmd.value.dataLength, fixed)
    ensures v == FailConnection <==>
              && 0 < length <= mrdsl && cmd.Some? && !cmd.value.gotLastDataOut
              && cmd.value.direction == DmaToDevice
              && !EndsPastData(offset, length, cmd.value.dataLength, fixed)
              && cmd.value.unsolicitedData && initialR2T
    ensures v == Dump <==>
              && 0 < length <= mrdsl && cmd.Some?
              && (|| cmd.value.gotLastDataOut
                  || (&& cmd.value.direction == DmaToDevice
                      && !EndsPastData(offset, length, cmd.value.dataLength, fixed)
                      && !(cmd.value.unsolicitedData && initialR2T)
                      && DropsPayload(cmd.value)))
  {
    if length == 0 then Reject(ProtocolError)
    else if length > mrdsl then Reject(ProtocolError)
    else if cmd.None? then NoCommand
    else if cmd.value.gotLastDataOut then Dump
    else if cmd.value.direction != DmaToDevice then Reject(ProtocolError)
    else if EndsPastData(offset, length, cmd.value.dataLength, fixed) then Reject(BookmarkInvalid)
    else if cmd.value.unsolicitedData && initialR2T then FailConnection
    else if DropsPayload(cmd.value) then Dump
    else Proceed
  }

  /**
   * A Data-Out the corrected checks let through carries data, fits the
   * negotiated segment length, belongs to a WRITE that still expects data
   * and whose payload is kept, lies wholly inside the expected transfer and
   * is not unsolicited data on a session that forbids it; and every such
   * PDU gets through.
   */
  lemma ProceedIff(length: nat, offset: u32, mrdsl: u32, initialR2T: bool, cmd: Option<CmdView>)
    requires length < 0x100_0000
    ensures CheckDataOut(length, offset, mrdsl, initialR2T, cmd, true) == Proceed <==>
              && 0 < length <= mrdsl
              && cmd.Some? && !cmd.value.gotLastDataOut
              && cmd.value.direction == DmaToDevice
              && offset + length <= cmd.value.dataLength
              && !(cmd.value.unsolicitedData && initialR2T)
              && !DropsPayload(cmd.value)
  {
  }

  /** As long as the sum does not wrap, the checks as written are the corrected ones. */
  lemma AsWrittenAgreesWithoutWrap(length: nat, offset: u32, mrdsl: u32, initialR2T: bool, cmd: Option<CmdView>)
    requires length < 0x100_0000
    requires offset + length < U32_MOD
    ensures CheckDataOut(length, offset, mrdsl, initialR2T, cmd, false)
            == CheckDataOut(length, offset, mrdsl, initialR2T, cmd, true)
  {
  }

  /**
   * As written, a Data-Out of 256 bytes at offset 0xffffff00 for a WRITE
   * of 512 bytes passes the bounds check, because the 32-bit sum wraps to
   * 0; the corrected check rejects it.
   */
  lemma WrappedOffsetAccepted()
    ensures var cmd := Some(CmdView(false, DmaToDevice, 512, false, true, false, false));
      && CheckDataOut(0x100, 0xFFFF_FF00, 0x2000, false, cmd, false) == Proceed
      && CheckDataOut(0x100, 0xFFFF_FF00, 0x2000, false, cmd, true) == Reject(BookmarkInvalid)
  {
  }

  /**
   * The bytes read for a data segment of `length` bytes: the data, the
   * `(-length) & 3` pad bytes and, with DataDigest, the four-byte digest.
   */
  function DataSegmentRxSize(length: u32, dataDigest: bool): (size: nat)
    ensures length <= size < length + 8
    ensures (size - (if dataDigest then ISCSI_CRC_LEN else 0)) % 4 == 0
    ensures size - length - (if dataDigest then ISCSI_CRC_LEN else 0) < 4
  {
    length + Pad4(length) + (if dataDigest then ISCSI_CRC_LEN else 0)
  }
}
