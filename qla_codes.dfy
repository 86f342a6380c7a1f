/**
 * The two status translations of the qla2xxx target fabric module: the
 * target core's task management response into the Fibre Channel task
 * management response handed to the qla2xxx firmware, and the result of
 * allocating a new command's tasks into the transport status the
 * target core's processing thread acts on.
 */
module QlaCodes {
  import opened Common

  /** Fibre Channel task management responses of the qla2xxx target driver. */
  datatype FcTmRsp = FcTmSuccess | FcTmBadCmd | FcTmReject | FcTmFailed

  /**
   * Response translation of tcm_qla2xxx_queue_tm_rsp: only a completed
   * function succeeds, an unknown task and a rejection keep their own codes,
   * and every other answer (an unknown LUN included) is a failure.
   */
  function QueueTmRsp(resp: TmrResponse): (r: FcTmRsp)
    ensures r == FcTmSuccess <==> resp == TmrFunctionComplete
    ensures r == FcTmBadCmd <==> resp == TmrTaskDoesNotExist
    ensures r == FcTmReject <==> resp == TmrFunctionRejected
    ensures r == FcTmFailed <==>
              resp !in {TmrFunctionComplete, TmrTaskDoesNotExist, TmrFunctionRejected}
  {
    match resp
    case TmrFunctionComplete => FcTmSuccess
    case TmrTaskDoesNotExist => FcTmBadCmd
    case TmrFunctionRejected => FcTmReject
    case TmrLunDoesNotExist => FcTmFailed
    case _ => FcTmFailed
  }

  /** Transport statuses that tcm_qla2xxx_new_cmd_map can hand back. */
  datatype TransportStatus =
    | NewCmd                      // 0: continue with TRANSPORT_NEW_CMD
    | OutOfMemoryResources
    | ReservationConflict
    | UseSenseReason

  /**
   * Status returned by tcm_qla2xxx_new_cmd_map for the value `ret` returned
   * by transport_generic_allocate_tasks; `reservationConflict` is the
   * SCF_SCSI_RESERVATION_CONFLICT flag of the command.
   */
  function NewCmdMap(ret: int, reservationConflict: bool): (r: TransportStatus)
    ensures r == NewCmd <==> ret != -ENOMEM && ret != -EINVAL
    ensures r == OutOfMemoryResources <==> ret == -ENOMEM
    ensures r == ReservationConflict <==> ret == -EINVAL && reservationConflict
    ensures r == UseSenseReason <==> ret == -EINVAL && !reservationConflict
  {
    if ret == -ENOMEM then OutOfMemoryResources
    else if ret == -EINVAL then
      (if reservationConflict then ReservationConflict else UseSenseReason)
    else NewCmd
  }
}
