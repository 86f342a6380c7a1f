/**
 * The response code of a Task Management Function Response (section 10.6.1
 * of RFC 3720), converted from the target core's answer.
 */
module TaskMgmt {
  import opened Common

  /** Task management function response codes (section 10.6.1 of RFC 3720). */
  const TMF_RSP_COMPLETE: u8 := 0x00
  const TMF_RSP_NO_TASK: u8 := 0x01
  const TMF_RSP_NO_LUN: u8 := 0x02
  const TMF_RSP_NOT_SUPPORTED: u8 := 0x05
  const TMF_RSP_AUTH_FAILED: u8 := 0x06
  const TMF_RSP_REJECTED: u8 := 0xff

  /**
   * iscsit_convert_tcm_tmr_rsp: the response code put in a Task Management
   * Function Response. A response of the target core without a case of its
   * own (a task still allegiant, a failover not supported) is reported as
   * rejected.
   */
  function ConvertTmrRsp(resp: TmrResponse): (code: u8)
    ensures code in {TMF_RSP_COMPLETE, TMF_RSP_NO_TASK, TMF_RSP_NO_LUN,
                     TMF_RSP_NOT_SUPPORTED, TMF_RSP_AUTH_FAILED, TMF_RSP_REJECTED}
    ensures code == TMF_RSP_REJECTED <==>
              resp in {TmrFunctionRejected, TmrTaskStillAllegiant, TmrTaskFailoverNotSupported}
  {
    match resp
    case TmrFunctionComplete => TMF_RSP_COMPLETE
    case TmrTaskDoesNotExist => TMF_RSP_NO_TASK
    case TmrLunDoesNotExist => TMF_RSP_NO_LUN
    case TmrTaskMgmtFunctionNotSupported => TMF_RSP_NOT_SUPPORTED
    case TmrFunctionAuthorizationFailed => TMF_RSP_AUTH_FAILED
    case TmrFunctionRejected => TMF_RSP_REJECTED
    case _ => TMF_RSP_REJECTED
  }

  /** What an initiator learns from a response code: the target core's answer, unless it was a rejection. */
  function TmrOfCode(code: u8): Option<TmrResponse> {
    if code == TMF_RSP_COMPLETE then Some(TmrFunctionComplete)
    else if code == TMF_RSP_NO_TASK then Some(TmrTaskDoesNotExist)
    else if code == TMF_RSP_NO_LUN then Some(TmrLunDoesNotExist)
    else if code == TMF_RSP_NOT_SUPPORTED then Some(TmrTaskMgmtFunctionNotSupported)
    else if code == TMF_RSP_AUTH_FAILED then Some(TmrFunctionAuthorizationFailed)
    else None
  }

  /**
   * Every answer that is not turned into a rejection reaches the initiator
   * unchanged, and a rejection code decodes to no particular answer.
   */
  lemma ConvertTmrRspDecodes(resp: TmrResponse)
    ensures ConvertTmrRsp(resp) != TMF_RSP_REJECTED ==> TmrOfCode(ConvertTmrRsp(resp)) == Some(resp)
    ensures ConvertTmrRsp(resp) == TMF_RSP_REJECTED ==> TmrOfCode(ConvertTmrRsp(resp)) == None
  {
  }

  /** Distinct answers that are not rejected get distinct codes. */
  lemma ConvertTmrRspInjective(r1: TmrResponse, r2: TmrResponse)
    requires ConvertTmrRsp(r1) == ConvertTmrRsp(r2) != TMF_RSP_REJECTED
    ensures r1 == r2
  {
    ConvertTmrRspDecodes(r1);
    ConvertTmrRspDecodes(r2);
  }
}
