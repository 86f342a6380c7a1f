/**
 * Protocol constants and state enumerations of the iSCSI target, together
 * with the negotiated parameters the target consults (RFC 3720).
 */
module IscsiTypes {
  import opened Common

  /** The reserved tag 0xffffffff ("no task tag" / "no transfer tag"). */
  const RESERVED_TAG: u32 := 0xFFFF_FFFF

  /** Basic header segment and digest lengths (section 10.2 of RFC 3720). */
  const ISCSI_HDR_LEN: nat := 48
  const ISCSI_CRC_LEN: nat := 4

  /** Target connection states. */
  datatype ConnState = ConnFree | XptUp | InLogin | LoggedIn | InLogout | LogoutRequested | CleanupWait

  /** Target session states. */
  datatype SessionState = SessFree | SessActive | SessLoggedIn | SessFailed | SessInContinue

  /** The per-command state driving the connection's transmit thread. */
  datatype CmdState =
    | NewCmd | SendR2T | SendDataIn | SendStatus | SentStatus | SendReject | Remove
    | ReceivedLastDataOut | SendLogoutRsp | SendNopInRsp | SendTaskMgtRsp | SendTextRsp
    | SendAsyncMsg | SendNopIn | WriteRecovery

  /** Direction of the data phase of a SCSI command. */
  datatype DataDirection = DmaToDevice | DmaFromDevice | DmaNone

  /** Reject reasons used by the modelled paths (section 10.17.1 of RFC 3720). */
  datatype RejectReason = DataDigestError | ProtocolError | BookmarkInvalid | BookmarkNoResources

  /** Session-wide negotiated parameters. */
  datatype SessOps = SessOps(
    maxOutstandingR2T: u32,
    maxBurstLength: u32,
    firstBurstLength: u32,
    errorRecoveryLevel: nat,
    dataSequenceInOrder: bool,
    initialR2T: bool,
    immediateData: bool)

  /** Connection-wide negotiated parameters. */
  datatype ConnOps = ConnOps(
    maxRecvDataSegmentLength: u32,
    headerDigest: bool,
    dataDigest: bool)

  /** Logout reason codes (section 10.14.1 of RFC 3720). */
  const CLOSE_SESSION: nat := 0
  const CLOSE_CONNECTION: nat := 1
  const REMOVE_FOR_RECOVERY: nat := 2

  /** Logout response codes (section 10.15.1 of RFC 3720). */
  const LOGOUT_SUCCESS: nat := 0
  const LOGOUT_CID_NOT_FOUND: nat := 1
  const LOGOUT_RECOVERY_UNSUPPORTED: nat := 2
  const LOGOUT_CLEANUP_FAILED: nat := 3

  /**
   * The padding `(-len) & 3` that brings a data segment of `len` bytes to
   * a four-byte boundary; `x & 3` of a non-negative x is `x % 4`.
   */
  function Pad4(len: u32): (pad: nat)
    ensures pad < 4
    ensures (len + pad) % 4 == 0
    ensures pad == 0 <==> len % 4 == 0
    ensures pad == (4 - len % 4) % 4
  {
    ((U32_MOD - len) % U32_MOD) % 4
  }
}
