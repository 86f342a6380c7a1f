/**
 * Fixed-width integers, an Option type and the SCSI target core's task
 * management response codes, shared by the iSCSI target and the qla2xxx
 * fabric modules.
 */
module Common {

  const U32_MOD: int := 0x1_0000_0000
  const U64_MOD: int := 0x1_0000_0000_0000_0000

  type u8 = x: int | 0 <= x < 0x100
  type u32 = x: int | 0 <= x < U32_MOD
  type u64 = x: int | 0 <= x < U64_MOD

  /** Kernel errno values that appear in the modelled code. */
  const ENOMEM: int := 12
  const EINVAL: int := 22

  datatype Option<T> = None | Some(value: T)

  /** `x++` on a u32: the value after the increment, wrapping at 2^32. */
  function Inc32(x: u32): (r: u32)
    ensures x < U32_MOD - 1 ==> r == x + 1
    ensures x == U32_MOD - 1 ==> r == 0
  {
    (x + 1) % U32_MOD
  }

  /**
   * Responses of the generic target core to a task management request
   * (enum tcm_tmrsp_table of the target core).
   */
  datatype TmrResponse =
    | TmrFunctionComplete
    | TmrTaskDoesNotExist
    | TmrLunDoesNotExist
    | TmrTaskStillAllegiant
    | TmrTaskFailoverNotSupported
    | TmrTaskMgmtFunctionNotSupported
    | TmrFunctionAuthorizationFailed
    | TmrFunctionRejected
}
