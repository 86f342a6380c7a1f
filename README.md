# iSCSI target and qla2xxx fabric rules, in Dafny

This project models three pieces of the Linux SCSI target (LIO) and proves
properties about them.

**The iSCSI target's per-PDU rules and per-command bookkeeping**
(`drivers/target/iscsi/iscsi_target.c`, RFC 3720):
- the checks on a SCSI Command header, and the direction and data flags it yields;
- the checks on a Data-Out PDU;
- the bookkeeping of immediate data;
- the R2T generation loop;
- the ExpStatSN acknowledgement sweep;
- the StatSN and Target Transfer Tag counters of the response builders;
- the 4-byte data-segment padding;
- the translation of task management responses;
- the logout handlers and the logout post-handler;
- the decision on the session's fate when a connection closes.

**World Wide Name parsing and printing in the qla2xxx fabric module**
(`drivers/target/tcm_qla2xxx/tcm_qla2xxx_fabric.c`), including the NPIV
`wwpn:wwnn` pair, and two response-code mappings.

**The range-checked setters of an initiator's node attributes**
(`drivers/target/iscsi/iscsi_target_nodeattrib.c`).

Each part is modelled in the form the C code has:
- Code that updates objects in place becomes classes with `modifies` clauses:
  - `TargetCmd.Cmd`, `TargetConn.Conn` and `TargetConn.Session`;
  - `NodeAttrib.NodeAcl`;
  - the loops of `Wwn.ParseWwn` and `Npiv.NpivExtractWwn`.
- Each such method states its new state or result in its `ensures`. The loops are proved to compute a specification function, whose properties are then proved as lemmas; the node attribute setters state the new record directly.
- Plain decisions become functions with contracts:
  - the header checks;
  - the logout decisions;
  - the task management response codes;
  - the code mappings.

The modules:

| module | file | contents |
|---|---|---|
| `Common` | common.dfy | fixed-width integers, 32-bit increment, `Option`, TCM task management responses |
| `IscsiTypes` | iscsi_types.dfy | states, reject reasons, negotiated parameters, `Pad4` |
| `ScsiCmd` | scsi_cmd.dfy | the SCSI Command header checks |
| `DataOut` | data_out.dfy | the Data-Out checks; the size of a received data segment |
| `R2tPlan` | r2t.dfy | the R2Ts one call of the build loop queues |
| `TargetCmd` | cmd.dfy | the command object and its R2T build loop |
| `Counters` | counters.dfy | StatSN and Target Transfer Tag sequences |
| `TargetConn` | conn.dfy | connection and session objects: ack sweep, immediate data, PDU builders, logout handlers, the Connection Dropped message |
| `Logout` | logout.dfy | logout reason, responses, post-handler, close-connection fate |
| `TaskMgmt` | tmf.dfy | Task Management Function Response codes |
| `Wwn`, `Npiv`, `QlaCodes` | wwn.dfy, npiv.dfy, qla_codes.dfy | the fabric module |
| `NodeAttrib` | nodeattrib.dfy | the node attribute record and its setters |

Integers are unbounded in Dafny. Wherever the C code computes in `u32` or
`u64`, the model reduces explicitly modulo 2^32 or 2^64. This affects the
StatSN and TTT counters, `write_data_done`, `r2t_offset`, and the WWN
accumulator.

## Model

| member | source | states |
|---|---|---|
| Common.Inc32 | drivers/target/iscsi/iscsi_target.c:3078 | `x++` on a u32: one more, and 0xffffffff wraps to 0 |
| IscsiTypes.Pad4 | drivers/target/iscsi/iscsi_target.c:2537 | `(-len) & 3` is below 4, makes `len + pad` a multiple of 4, is 0 exactly for aligned lengths, and equals `(4 - len % 4) % 4` |
| ScsiCmd.CheckScsiCmd | drivers/target/iscsi/iscsi_target.c:1009-1123 | on acceptance: direction is W→TO_DEVICE, else R→FROM_DEVICE, else NONE; `immediate_data` iff the payload is non-empty; `unsolicited_data` iff W without F |
| ScsiCmd.RejectIffViolates | drivers/target/iscsi/iscsi_target.c:1009-1100 | a command is rejected exactly when one of the listed violations holds (W and F clear, R/W with EDTL 0 outside RESERVE/RELEASE, EDTL without R/W, bidirectional, immediate bit, unwanted immediate data, payload equal to EDTL without F, payload over EDTL, MaxRecvDataSegmentLength or FirstBurstLength) |
| ScsiCmd.RejectReasons | drivers/target/iscsi/iscsi_target.c:1009-1100 | which reject reason each violation produces, in the order the checks run |
| ScsiCmd.AcceptedCommand | drivers/target/iscsi/iscsi_target.c:1009-1123 | an accepted command has a payload within EDTL, MaxRecvDataSegmentLength and FirstBurstLength, and below EDTL when unsolicited data follows |
| ScsiCmd.ReserveReleaseException | drivers/target/iscsi/iscsi_target.c:1017-1036 | R/W with EDTL 0 is rejected, except for CDB 0x16/0x17, where R and W are cleared and the command goes on as one without data |
| DataOut.CheckDataOut | drivers/target/iscsi/iscsi_target.c:1408-1551 | for each verdict, exactly when it is given: a protocol-error reject for an empty payload, one over MaxRecvDataSegmentLength, or a non-WRITE command; no command for an unknown ITT; a bookmark-invalid reject when the PDU ends past EDTL (by the 32-bit sum as written, the true sum corrected); a failed connection for unsolicited data under InitialR2T=Yes; a dump after the last Data-Out, or for unsolicited data of an unsupported or failed command, or solicited data of an aborted one |
| DataOut.ProceedIff | drivers/target/iscsi/iscsi_target.c:1408-1475 | with the corrected bound, a Data-Out passes exactly when it is non-empty and within MaxRecvDataSegmentLength, is for a WRITE still expecting data whose payload is kept, lies inside EDTL, and is not forbidden unsolicited data |
| DataOut.AsWrittenAgreesWithoutWrap | drivers/target/iscsi/iscsi_target.c:1458 | as long as `offset + length` does not wrap, the checks as written and corrected agree |
| DataOut.WrappedOffsetAccepted | drivers/target/iscsi/iscsi_target.c:1458 | a Data-Out at offset 0xffffff00 of 256 bytes passes the 32-bit bound check of a 512-byte WRITE as written |
| DataOut.DataSegmentRxSize | drivers/target/iscsi/iscsi_target.c:2533-2548 | the bytes read for a data segment: the data, 0-3 pad bytes to a 4-byte boundary, and 4 more with DataDigest |
| R2tPlan.InOrderPlan | drivers/target/iscsi/iscsi_target.c:3335-3383 | the loop queues at most the free R2T slots; it stops early exactly when it reaches EDTL and sets the last-R2T flag |
| R2tPlan.InOrderPlanStep | drivers/target/iscsi/iscsi_target.c:3336-3357 | one iteration of the in-order loop appends one R2T at `r2t_offset` and moves `r2t_offset` by its length |
| R2tPlan.InOrderPlanContiguous | drivers/target/iscsi/iscsi_target.c:3336-3357 | the R2Ts are contiguous from the start offset, the new `r2t_offset` is their end, and the flag is set iff it reached EDTL |
| R2tPlan.InOrderPlanBounded | drivers/target/iscsi/iscsi_target.c:3339-3354 | each R2T ends within EDTL; the first is at most the first burst and the rest at most MaxBurstLength |
| R2tPlan.InOrderPlanNoWrap | drivers/target/iscsi/iscsi_target.c:3339-3354 | when EDTL plus a burst fits in 32 bits, the loop as written is the corrected one |
| R2tPlan.R2tPastDataLength | drivers/target/iscsi/iscsi_target.c:3347-3354 | as written, an R2T near the top of the 32-bit range asks for data past EDTL |
| R2tPlan.OutOfOrderPlan | drivers/target/iscsi/iscsi_target.c:3358-3383 | out of order, the loop queues at most one R2T per lookup; a failed lookup ends it without the last flag |
| R2tPlan.OutOfOrderPlanStep | drivers/target/iscsi/iscsi_target.c:3358-3371 | one out-of-order iteration queues the sequence's offset and length |
| R2tPlan.OutOfOrderPlanFollowsLookups | drivers/target/iscsi/iscsi_target.c:3358-3371 | out of order, the R2Ts are exactly the sequence holders returned, in order |
| R2tPlan.OutOfOrderPlanLast | drivers/target/iscsi/iscsi_target.c:3370-3371 | the last-R2T flag is set only when the send order reached the sequence count |
| TargetCmd.Budget | drivers/target/iscsi/iscsi_target.c:3335 | the loop runs until `outstanding_r2ts` reaches MaxOutstandingR2T |
| TargetCmd.StartOffset | drivers/target/iscsi/iscsi_target.c:3331-3333 | in order and not a recovery (type 2) call, `r2t_offset` is first raised to `write_data_done` |
| TargetCmd.FirstBurst | drivers/target/iscsi/iscsi_target.c:3339-3346 | the first R2T of a type 2 call is limited to MaxBurstLength minus `next_burst_len` |
| TargetCmd.Queue | drivers/target/iscsi/iscsi_target.c:3373-3379 | queuing R2Ts adds them to the list and counts each as outstanding; nothing else changes |
| TargetCmd.BuildR2TsSpec | drivers/target/iscsi/iscsi_target.c:3317-3387 | a command already past its last R2T is unchanged; the outstanding bound is preserved; the list only grows, in step with the outstanding count; rc is -1 only out of order |
| TargetCmd.BuildR2TsInOrder | drivers/target/iscsi/iscsi_target.c:3331-3357 | in order: the new R2Ts are contiguous from the raised start, bounded by the burst lengths and EDTL, and the last flag is set iff `r2t_offset` reaches EDTL |
| TargetCmd.BuildR2TsOutOfOrder | drivers/target/iscsi/iscsi_target.c:3358-3371 | out of order: `r2t_offset` is untouched, the R2Ts follow the sequence lookups, and a failed lookup leaves the flag clear |
| TargetCmd.Cmd.BuildR2Ts | drivers/target/iscsi/iscsi_target.c:3317-3387 | iscsit_build_r2ts_for_cmd updates the R2T state and the last-R2T flag as BuildR2TsSpec says, and nothing else |
| TargetCmd.Cmd.RequestInOrder | drivers/target/iscsi/iscsi_target.c:3335-3386 | the in-order loop computes InOrderPlan |
| TargetCmd.Cmd.RequestOutOfOrder | drivers/target/iscsi/iscsi_target.c:3335-3386 | the out-of-order loop computes OutOfOrderPlan |
| TargetCmd.Cmd.MarkRemoved | drivers/target/iscsi/iscsi_target.c:971 | the command's state becomes ISTATE_REMOVE and nothing else changes |
| TargetCmd.Cmd.constructor | drivers/target/iscsi/iscsi_target.c:1102-1123 | a new command carries the header's EDTL, direction and flags, with empty state |
| Counters.StatSnStep | drivers/target/iscsi/iscsi_target.c:3398-3400 | responses that take a StatSN get the connection's and advance it by one; R2T and unsolicited NOP-In report it without advancing; a recovery SCSI Response keeps its own |
| Counters.StatSnRunConsecutive | drivers/target/iscsi/iscsi_target.c:3078 | over any sequence of PDUs, those that take a StatSN get consecutive numbers modulo 2^32, and the counter ends one past the last |
| Counters.StatSnRunDistinct | drivers/target/iscsi/iscsi_target.c:3078 | fewer than 2^32 responses never share a StatSN |
| Counters.TttAlloc | drivers/target/iscsi/iscsi_target.c:1127-1131 | a TTT is never 0xffffffff; it is the counter unless the counter is reserved; the counter is left one past it |
| Counters.TttRunCycle | drivers/target/iscsi/iscsi_target.c:3264-3267 | successive TTTs count up modulo 2^32 - 1, skipping 0xffffffff |
| Counters.TttRunDistinct | drivers/target/iscsi/iscsi_target.c:3264-3267 | up to 2^32 - 1 successive TTTs are distinct and never reserved |
| TargetConn.PduTxSize | drivers/target/iscsi/iscsi_target.c:3429-3487 | a PDU is the header plus its header digest, plus for a data segment the data, pad and data digest; always a multiple of 4 |
| TargetConn.ImmediateData | drivers/target/iscsi/iscsi_target.c:2506-2620 | failures of the mapping or the receive cannot be recovered and change nothing; a digest error moves the command to SEND_REJECT with DATA_DIGEST_ERROR, adds the fail-connection flag at ERL 0 and keeps the data counters; otherwise `write_data_done` grows by `length` (mod 2^32); reaching EDTL sets GOT_LAST_DATAOUT and RECEIVED_LAST_DATAOUT |
| TargetConn.ImmediateDataOfNewCommand | drivers/target/iscsi/iscsi_target.c:2609-2616 | after an accepted header, intact immediate data sets `write_data_done` to the payload length (within EDTL); the command is complete exactly when that is EDTL, and never when unsolicited Data-Out is to follow |
| TargetConn.AfterAck | drivers/target/iscsi/iscsi_target.c:969-971 | an acknowledged command becomes ISTATE_REMOVE; any other is unchanged |
| TargetConn.SweptEntriesRemove | drivers/target/iscsi/iscsi_target.c:967-978 | the sweep queues only ISTATE_REMOVE entries, for commands of the list |
| TargetConn.SweptOnce | drivers/target/iscsi/iscsi_target.c:967-978 | each command acknowledged by ExpStatSN is queued exactly once, and no other command is queued |
| TargetConn.SweepAcked | drivers/target/iscsi/iscsi_target.c:967-978 | the walk over the command list returns the SweptEntries queue and leaves each command as AfterAck says |
| TargetConn.Conn.AckFromExpStatSn | drivers/target/iscsi/iscsi_target.c:960-980 | `exp_statsn` becomes `e`; the acknowledged commands become REMOVE and are appended to the immediate queue; nothing else changes |
| TargetConn.Conn.HandleImmediateData | drivers/target/iscsi/iscsi_target.c:2506-2620 | reads nothing when the first mapping fails; otherwise reads data, pad and digest, updates the command as ImmediateData says, and queues a digest reject on the response queue |
| TargetConn.Conn.SendStatus | drivers/target/iscsi/iscsi_target.c:3389-3497 | a new SCSI Response takes the next StatSN and a recovery keeps its own; tx_size includes sense data when present |
| TargetConn.Conn.SendLogoutResponse | drivers/target/iscsi/iscsi_target.c:2993-3113 | the response code is Logout.SendLogoutResponse's and the PDU takes the next StatSN; an unknown reason returns -1 with nothing changed |
| TargetConn.Conn.SendUnsolicitedNopin | drivers/target/iscsi/iscsi_target.c:3115-3156 | the NOP-In reports the current StatSN without advancing it |
| TargetConn.Conn.SendNopinResponse | drivers/target/iscsi/iscsi_target.c:3157-3243 | the NOP-In response takes the next StatSN and carries the ping data |
| TargetConn.Conn.SendR2T | drivers/target/iscsi/iscsi_target.c:3244-3309 | the first unsent R2T goes out with a fresh TTT from the session, which is recorded as that R2T's tag, and the current StatSN, not advanced; with none left, -1 and nothing changes |
| TargetConn.Conn.SendTaskMgtRsp | drivers/target/iscsi/iscsi_target.c:3517-3563 | the response code is ConvertTmrRsp's; the PDU takes the next StatSN |
| TargetConn.Conn.SendTextRsp | drivers/target/iscsi/iscsi_target.c:3649-3727 | a negative text length is returned with nothing changed; otherwise the Text Response takes the next StatSN and carries the text |
| TargetConn.Conn.SendReject | drivers/target/iscsi/iscsi_target.c:3728-3787 | the Reject takes the next StatSN and carries the rejected header |
| TargetConn.Conn.SendConnDropAsync | drivers/target/iscsi/iscsi_target.c:2772-2817 | the Async Message takes the next StatSN; ITT and TTT become 0xffffffff |
| TargetConn.Conn.SendAsyncMsg | drivers/target/iscsi/iscsi_target.c:2621-2734 | the StatSN is taken before the event is examined; unsupported events return -1; a logout request moves the connection to LOGOUT_REQUESTED |
| TargetConn.Conn.LogoutCloseConnection | drivers/target/iscsi/iscsi_target.c:2262-2308 | a close of this CID moves the connection to IN_LOGOUT and marks it for removal; an unknown other CID answers CID_NOT_FOUND; the response is queued |
| TargetConn.Conn.LogoutRemoveConnForRecovery | drivers/target/iscsi/iscsi_target.c:2310-2337 | ERL other than 2 answers RECOVERY_UNSUPPORTED; removing its own CID answers CLEANUP_FAILED; the response is queued |
| TargetConn.Conn.AddCmd | drivers/target/iscsi/iscsi_target.c:2765-2768 | the command joins the connection's list and its response queue |
| TargetConn.Conn.EnterLogout | drivers/target/iscsi/iscsi_target.c:2253 | the connection's state becomes IN_LOGOUT and nothing else changes |
| TargetConn.LogoutState | drivers/target/iscsi/iscsi_target.c:2248-2254 | a session logout moves LOGGED_IN to IN_LOGOUT and leaves every other state |
| TargetConn.FirstLoggedIn | drivers/target/iscsi/iscsi_target.c:2744-2749 | the walk stops at the first LOGGED_IN connection, or past the end when there is none |
| TargetConn.DropAsyncTarget | drivers/target/iscsi/iscsi_target.c:2744-2752 | as written, a connection position is always chosen |
| TargetConn.DropAsyncTargetFirstLoggedIn | drivers/target/iscsi/iscsi_target.c:2744-2752 | corrected, the message goes to the first LOGGED_IN connection, and there is one iff some connection is LOGGED_IN |
| TargetConn.DropAsyncWithoutLoggedInConn | drivers/target/iscsi/iscsi_target.c:2744-2752 | with no LOGGED_IN connection, as written the chosen position is past the end of the list; corrected, none is chosen |
| TargetConn.Session.BuildConnDropAsyncMessage | drivers/target/iscsi/iscsi_target.c:2735-2770 | a new Async Message command with the failed CID joins the first LOGGED_IN connection's list and response queue; every other connection is unchanged; with none, nothing is sent |
| TargetConn.Session.AllocTtt | drivers/target/iscsi/iscsi_target.c:1127-1131 | the tag and the counter afterwards are TttAlloc's |
| TargetConn.Session.NewScsiCmd | drivers/target/iscsi/iscsi_target.c:1102-1131 | the new command has the header's EDTL and the verdict's flags; a READ gets a fresh TTT, a WRITE 0xffffffff, others 0 |
| TargetConn.LogoutAll | drivers/target/iscsi/iscsi_target.c:2247-2254 | the walk over the session's connections moves each LOGGED_IN one to IN_LOGOUT and changes nothing else on any of them |
| TargetConn.Session.LogoutCloseSession | drivers/target/iscsi/iscsi_target.c:2232-2260 | the session is marked as logging out; every LOGGED_IN connection moves to IN_LOGOUT and no other changes state; the requesting connection is marked for removal and queues the response |
| TaskMgmt.ConvertTmrRsp | drivers/target/iscsi/iscsi_target.c:3498-3515 | each TCM response has its own RFC 3720 code; everything unknown is FUNCTION REJECTED |
| TaskMgmt.ConvertTmrRspDecodes | drivers/target/iscsi/iscsi_target.c:3498-3515 | the code decodes back to the TCM response, except for REJECTED |
| TaskMgmt.ConvertTmrRspInjective | drivers/target/iscsi/iscsi_target.c:3498-3515 | two responses with the same code other than REJECTED are the same |
| Logout.LogoutReason | drivers/target/iscsi/iscsi_target.c:2350 | the reason code is `flags & 0x7f` |
| Logout.LogoutRemove | drivers/target/iscsi/iscsi_target.c:2396-2399 | the connection is removed for CLOSE_SESSION, and for CLOSE_CONNECTION exactly on its own CID |
| Logout.HandleLogoutCmd | drivers/target/iscsi/iscsi_target.c:2339-2434 | a logout on a connection that is not LOGGED_IN is ignored; otherwise allocation failure rejects, and an accepted logout removes as LogoutRemove says and is acknowledged unless it is a recovery removal |
| Logout.HandlerResponse | drivers/target/iscsi/iscsi_target.c:2262-2337 | CID_NOT_FOUND, RECOVERY_UNSUPPORTED and CLEANUP_FAILED each hold exactly in their case; SUCCESS otherwise |
| Logout.SendLogoutResponse | drivers/target/iscsi/iscsi_target.c:3003-3068 | the response code the builder sends for each reason, given the handler's code; unknown reasons build nothing |
| Logout.LogoutResponseEndToEnd | drivers/target/iscsi/iscsi_target.c:2262-3068 | the handler's code followed by the builder's gives the response the initiator sees in each case |
| Logout.LogoutPostHandler | drivers/target/iscsi/iscsi_target.c:4752-4809 | returns 0 for CLOSE_SESSION and for same-CID CLOSE_CONNECTION, 1 for other-CID CLOSE_CONNECTION and for recovery removal; which post action runs |
| Logout.PostHandlerMatchesRemove | drivers/target/iscsi/iscsi_target.c:4752-4809 | the post-handler returns 0 exactly for the logouts that set `logout_remove` (2396-2399) |
| Logout.CloseConnectionFate | drivers/target/iscsi/iscsi_target.c:4536-4604 | the session fails when it falls back to ERL 0, or below ERL 2 without a logout; then whether it is stopped, closed, freed or left |
| Logout.NonErl2FailureFailsSession | drivers/target/iscsi/iscsi_target.c:4536-4604 | below ERL 2, a connection that drops without logout fails the session |
| Logout.Erl2KeepsSession | drivers/target/iscsi/iscsi_target.c:4536-4604 | at ERL 2, with other connections and no reinstatement, the session is left alone |
| QlaCodes.QueueTmRsp | drivers/target/tcm_qla2xxx/tcm_qla2xxx_fabric.c:786-800 | FUNCTION_COMPLETE→SUCCESS, TASK_DOES_NOT_EXIST→BAD_CMD, FUNCTION_REJECTED→REJECT, everything else→FAILED |
| QlaCodes.NewCmdMap | drivers/target/tcm_qla2xxx/tcm_qla2xxx_fabric.c:643-664 | -ENOMEM→OUT_OF_MEMORY_RESOURCES; -EINVAL→RESERVATION_CONFLICT or USE_SENSE_REASON by the flag; anything else passes |
| Wwn.HexDigitOfNibble | drivers/target/tcm_qla2xxx/tcm_qla2xxx_fabric.c:114-122 | printing a digit's nibble gives back the digit |
| Wwn.FormatWwn | drivers/target/tcm_qla2xxx/tcm_qla2xxx_fabric.c:114-122 | a WWN prints as 23 characters |
| Wwn.Snprintf | drivers/target/tcm_qla2xxx/tcm_qla2xxx_fabric.c:119-121 | the buffer keeps a prefix of the text shorter than `len`, the whole text when it fits, nothing when `len` is 0; the return value is the text's full length |
| Wwn.FormatWwnInto | drivers/target/tcm_qla2xxx/tcm_qla2xxx_fabric.c:114-122 | the return value is 23 whatever `len` is; a buffer of 24 bytes or more holds the whole formatted WWN, a smaller one its first `len - 1` characters |
| Wwn.FormatWwnIntoParses | drivers/target/tcm_qla2xxx/tcm_qla2xxx_fabric.c:66-122 | a buffer that holds the whole name parses strictly back to the WWN; a truncated one is rejected |
| Wwn.ShortStrictRejected | drivers/target/tcm_qla2xxx/tcm_qla2xxx_fabric.c:81-111 | a strict name shorter than 23 characters is rejected |
| Wwn.JoinHexAt | drivers/target/tcm_qla2xxx/tcm_qla2xxx_fabric.c:114-122 | byte k prints as two lower-case digits at 3k, followed by ':' except after the last |
| Wwn.BeValueOfBeBytes | drivers/target/tcm_qla2xxx/tcm_qla2xxx_fabric.c:114-122 | reading back the big-endian bytes of a number gives the number |
| Wwn.BeBytesOfBeValue | drivers/target/tcm_qla2xxx/tcm_qla2xxx_fabric.c:114-122 | the big-endian bytes of a byte list's value are the list |
| Wwn.ParseAsWritten | drivers/target/tcm_qla2xxx/tcm_qla2xxx_fabric.c:71-112 | the parse returns -1 or a length within the name buffer |
| Wwn.ParseWwn | drivers/target/tcm_qla2xxx/tcm_qla2xxx_fabric.c:71-112 | the parse loop computes ParseAsWritten |
| Wwn.StrictRoundTrip | drivers/target/tcm_qla2xxx/tcm_qla2xxx_fabric.c:66-122 | strict parsing of a formatted WWN, with or without one trailing newline, returns its length and the WWN |
| Wwn.StrictAcceptsOnlyFormattedShape | drivers/target/tcm_qla2xxx/tcm_qla2xxx_fabric.c:81-111 | an accepted strict name begins with eight lower-case hex pairs separated by colons, and the length returned is at least 23 |
| Wwn.CorrectedStrictIsFormat | drivers/target/tcm_qla2xxx/tcm_qla2xxx_fabric.c:66-69 | with the corrected check, an accepted strict name is exactly the formatted WWN it yields (and at most a newline) |
| Wwn.CorrectedStrictInjective | drivers/target/tcm_qla2xxx/tcm_qla2xxx_fabric.c:66-69 | with the corrected check, two strict names with the same WWN are the same name |
| Wwn.StrictAcceptsExtraDigit | drivers/target/tcm_qla2xxx/tcm_qla2xxx_fabric.c:85-95 | as written, a formatted WWN followed by one more hex digit is accepted, with the digit shifted in; corrected, it is rejected |
| Wwn.StrictAcceptsTrailingDigits | drivers/target/tcm_qla2xxx/tcm_qla2xxx_fabric.c:85-95 | as written, a formatted WWN followed by one more digit, and the formatting of the WWN that yields, are two different strict names accepted with the same WWN; corrected, the first is rejected |
| Wwn.NonStrictParse | drivers/target/tcm_qla2xxx/tcm_qla2xxx_fabric.c:80-105 | non-strict parsing of hex digits of either case before the terminator returns their count and their value modulo 2^64; a newline just before the terminator adds one to the count, except at index 30, where the name is rejected; the corrected check agrees |
| Wwn.UnterminatedFails | drivers/target/tcm_qla2xxx/tcm_qla2xxx_fabric.c:81-111 | a name without NUL in the scanned range is rejected |
| Npiv.HexToBin | drivers/target/tcm_qla2xxx/tcm_qla2xxx_fabric.c:141 | hex_to_bin gives the digit's value, and -1 for anything else |
| Npiv.PairByte | drivers/target/tcm_qla2xxx/tcm_qla2xxx_fabric.c:140-152 | two hex digits give their byte; a non-digit contributes 0xffffffff, so the byte is 0xff or 0xf0 plus the low digit |
| Npiv.NpivExtractWwn | drivers/target/tcm_qla2xxx/tcm_qla2xxx_fabric.c:132-155 | as written, the extractor always returns 0 and yields the big-endian value of the eight bytes |
| Npiv.NpivExtractWwnChecked | drivers/target/tcm_qla2xxx/tcm_qla2xxx_fabric.c:132-155 | with a signed `value`, the extractor fails with -EINVAL exactly when a character is not a hex digit |
| Npiv.PairBytesValue | drivers/target/tcm_qla2xxx/tcm_qla2xxx_fabric.c:140-154 | on hex digits, the bytes' big-endian value is the digits' hex value |
| Npiv.NpivParseWwn | drivers/target/tcm_qla2xxx/tcm_qla2xxx_fabric.c:160-189 | as written: succeeds iff, after one trailing newline is dropped, the name is 33 characters with ':' at 16, whatever the other characters; a failure leaves both outputs 0; each half is the big-endian value of its extracted bytes, which is the digits' value when they are hex |
| Npiv.NpivParseWwnChecked | drivers/target/tcm_qla2xxx/tcm_qla2xxx_fabric.c:160-189 | with the checked extractor: succeeds iff the shape holds and both halves are 16 hex digits; WWPN and WWNN are those digits' values; a failure leaves the WWNN 0, and the WWPN 0 unless its digits were read |
| Npiv.NpivFormatWwn | drivers/target/tcm_qla2xxx/tcm_qla2xxx_fabric.c:191-202 | prints two formatted WWNs joined by ',' in 47 characters |
| Npiv.NpivFormatWwnInto | drivers/target/tcm_qla2xxx/tcm_qla2xxx_fabric.c:191-202 | the return value is 47 whatever `len` is; a buffer of 48 bytes or more holds the whole pair, a smaller one its first `len - 1` characters, and one of 24 or more holds the whole WWPN |
| Npiv.NpivFormatNotParsed | drivers/target/tcm_qla2xxx/tcm_qla2xxx_fabric.c:160-202 | the printed pair is never in the shape the pair parser accepts |
| Npiv.NpivParseRoundTrip | drivers/target/tcm_qla2xxx/tcm_qla2xxx_fabric.c:160-189 | 16 hex digits, ':' and 16 hex digits parse back to the two values |
| NodeAttrib.DefaultAttribs | drivers/target/iscsi/iscsi_target_nodeattrib.c:39-52 | the defaults satisfy every setter's range |
| NodeAttrib.LoggedInIndicesExact | drivers/target/iscsi/iscsi_target_nodeattrib.c:140-150 | the timer walk visits exactly the LOGGED_IN connections, in order |
| NodeAttrib.NodeAcl.constructor | drivers/target/iscsi/iscsi_target_nodeattrib.c:39-52 | a new record holds the defaults |
| NodeAttrib.NodeAcl.SetDefaultNodeAttributes | drivers/target/iscsi/iscsi_target_nodeattrib.c:39-52 | all eight attributes are set to their defaults |
| NodeAttrib.NodeAcl.SetDataoutTimeout | drivers/target/iscsi/iscsi_target_nodeattrib.c:54-77 | accepted iff within [MIX, MAX]; otherwise -EINVAL and nothing changes; on success only this field changes |
| NodeAttrib.NodeAcl.SetDataoutTimeoutRetries | drivers/target/iscsi/iscsi_target_nodeattrib.c:79-103 | accepted iff within [MIN, MAX]; otherwise -EINVAL and nothing changes |
| NodeAttrib.NodeAcl.SetNopinTimeout | drivers/target/iscsi/iscsi_target_nodeattrib.c:105-158 | accepted iff 0 or within [MIN, MAX]; timers restart only when the old value was 0, on the LOGGED_IN connections |
| NodeAttrib.NodeAcl.SetNopinResponseTimeout | drivers/target/iscsi/iscsi_target_nodeattrib.c:160-184 | accepted iff within [MIN, MAX]; otherwise -EINVAL and nothing changes |
| NodeAttrib.NodeAcl.SetRandomDataInPduOffsets | drivers/target/iscsi/iscsi_target_nodeattrib.c:186-204 | accepts only 0 or 1 |
| NodeAttrib.NodeAcl.SetRandomDataInSeqOffsets | drivers/target/iscsi/iscsi_target_nodeattrib.c:206-224 | accepts only 0 or 1 |
| NodeAttrib.NodeAcl.SetRandomR2TOffsets | drivers/target/iscsi/iscsi_target_nodeattrib.c:226-244 | accepts only 0 or 1 |
| NodeAttrib.NodeAcl.SetDefaultErl | drivers/target/iscsi/iscsi_target_nodeattrib.c:246-264 | accepts only 0, 1 or 2 |

## Left out

- Threads, locks, completions, signals and usage counts: they exist for concurrency. Of `iscsit_close_connection` only the final decision on the session is modelled.
- Sockets, `rx_data`/`tx_data`, page mapping and iovec set-up. The model takes as inputs whether the mapping succeeds and whether all bytes arrive. It does not model the bytes themselves.
- CRC32C. A digest check is an input saying whether the digests match.
- Oracles passed as parameters, whose code is not part of this model:
  - `iscsit_get_seq_holder_for_r2t` (the sequence lookups);
  - `iscsit_get_conn_from_cid` (the `found` flag);
  - `iscsit_find_cmd_from_itt` (the Data-Out command view);
  - the SendTargets text builder (the text length);
  - the sense data length;
  - the target core's task management response.
- The Data-Out timer: no call to it is modelled, neither the restart that every Data-Out for a WRITE gets nor the stop in the dump branches. Nor are the other side effects of the dump branches, the decrement of `outstanding_r2ts` and the delayed TASK_ABORTED status. The verdict says only that the payload is dropped. The session's `rx_data_octets` and the ACL's `write_bytes` statistics are not modelled either.
- The CmdSN checks, `iscsit_check_pre/post_dataout`, the DataSN and sequence checks of Data-Out, and `transport_generic_*` calls: their code is not part of this model.
- Memory allocation failures (`iscsit_allocate_cmd`, `iscsit_add_r2t_to_list`). The model always allocates, except for `Logout.HandleLogoutCmd`, which takes whether allocation succeeded as an input.
- The send of each builder and its failure path, and the wait of an Async logout request: these are socket I/O and timers.
- Header fields that are only copied through (LUN, CmdSN windows, Time2Wait/Time2Retain, `hdr->flags` of the responses). The model follows the counters and tags, not the byte layout.
- iscsit_send_data_in also takes a StatSN when status rides on the last Data-In. Data-In is not part of this model.
- The timers that `nopin_timeout` starts are not modelled. The setter returns the positions of the connections whose timers would start.
- Module and portal set-up, cpumask affinity, and the discovery-session opcode test.
- The qla2xxx hand-offs to the LLD and TCM core.
- `arch/arm/mach-at91/at91sam9rl.c` and `arch/arm/include/asm/smp_twd.h`: hardware tables and register constants.
- The `NA_*` limits come from `iscsi_target_core.h` and `TCM_QLA2XXX_NAMELEN` from `tcm_qla2xxx_base.h`. Neither header is part of this model; their values are written out as constants.
- TargetCmd.Cmd.BuildR2Ts: models the R2T arithmetic with the corrected bound, not the 32-bit wrap as written; R2tPlan.R2tPastDataLength exhibits the difference.
- TargetConn.Session.BuildConnDropAsyncMessage: models the corrected NULL test; TargetConn.DropAsyncWithoutLoggedInConn shows what the code as written does.
- TargetConn.Conn.HandleImmediateData: one mapping flag stands for both `iscsit_set_iovec_ptrs` calls; with DataDigest the second one maps the same segment at the same offset again.

## Findings

| source | as written | input that shows it | evidently intended | confidence | as-written member | corrected member |
|---|---|---|---|---|---|---|
| drivers/target/tcm_qla2xxx/tcm_qla2xxx_fabric.c:85-95 | in strict mode, `byte++ < 7` stops checking for a separator after the eighth byte, so hex digits after the last pair are shifted into the WWN | `"00:00:00:00:00:00:00:00a"` is accepted and yields 0xa | strict mode accepts exactly the 23-character form (the comment promises a one-to-one mapping) | not executed | Wwn.StrictAcceptsExtraDigit | Wwn.CorrectedStrictInjective |
| drivers/target/tcm_qla2xxx/tcm_qla2xxx_fabric.c:134-145 | `value` is unsigned, so `value >= 0` always holds and -EINVAL is never returned; a non-hex character contributes 0xffffffff | `"zz00000000000000"` extracts 0xff00000000000000 with status 0 | a non-hex character makes the extraction fail with -EINVAL | not executed | Npiv.NpivExtractWwn | Npiv.NpivExtractWwnChecked |
| drivers/target/iscsi/iscsi_target.c:1458 | `hdr->offset + payload_length` is a 32-bit sum that can wrap below EDTL | a 256-byte Data-Out at offset 0xffffff00 for a 512-byte WRITE passes the bound check | a Data-Out ending past EDTL is rejected | not executed | DataOut.WrappedOffsetAccepted | DataOut.ProceedIff |
| drivers/target/iscsi/iscsi_target.c:3347-3354 | `offset + MaxBurstLength` is a 32-bit sum that can wrap, so the full burst is asked for past EDTL | offset 0xfffff000, EDTL 0xffffffff, MaxBurstLength 0x10000 gives an R2T of 0x10000 bytes | each R2T ends within EDTL | not executed | R2tPlan.R2tPastDataLength | R2tPlan.InOrderPlanBounded |
| drivers/target/iscsi/iscsi_target.c:2744-2752 | after `list_for_each_entry` finds no LOGGED_IN connection, `conn_p` is the container of the list head, never NULL, so `!conn_p` never stops it | a session whose only connection fails with connection recovery set (the connection is already off the list) | no message is sent when no connection is LOGGED_IN | not executed | TargetConn.DropAsyncWithoutLoggedInConn | TargetConn.Session.BuildConnDropAsyncMessage |
