/**
 * The logout decisions of the iSCSI target, which depend only on codes and
 * flags: the handling of a Logout Request (sections 10.14 and 10.15 of
 * RFC 3720), the work done after the Logout Response is sent, and the
 * session's fate when the connection then closes.
 */
module Logout {
  import opened Common
  import opened IscsiTypes

  // ---------------------------------------------------------------------
  // Logout Request
  // ---------------------------------------------------------------------

  /** The reason code of a Logout Request: `flags & 0x7f`, the flags without the F bit. */
  function LogoutReason(flags: u8): (reason: nat)
    ensures reason < 0x80
    ensures flags < 0x80 ==> reason == flags
    ensures flags >= 0x80 ==> reason == flags - 0x80
  {
    flags % 0x80
  }

  /** Results of the CmdSN check, which is not part of this model. */
  datatype CmdSnResult = CmdSnNormal | CmdSnHigherThanExp | CmdSnLowerThanExp | CmdSnCannotRecover

  /** What iscsit_handle_logout_cmd does with a Logout Request. */
  datatype LogoutOutcome =
    | Ignored                              // returns 0, nothing allocated
    | RejectNoResources                    // no command could be allocated
    | Dropped(acked: bool)                 // CmdSN below ExpCmdSN: the command is removed, returns 0
    | RejectProtocolError(acked: bool)     // CmdSN check cannot recover
    | ExecuteFailed(acked: bool)           // returns -1
    | Accepted(acked: bool, remove: bool)  // returns `remove`: 1 puts the receive thread to sleep

  /**
   * Whether the connection the request arrives on goes away with it: a
   * session close, or a connection close naming this connection.
   */
  function LogoutRemove(reason: nat, hdrCid: nat, connCid: nat): (remove: bool)
    ensures remove ==> reason in {CLOSE_SESSION, CLOSE_CONNECTION}
    ensures reason == CLOSE_SESSION ==> remove
    ensures reason == CLOSE_CONNECTION ==> (remove <==> hdrCid == connCid)
  {
    reason == CLOSE_SESSION || (reason == CLOSE_CONNECTION && hdrCid == connCid)
  }

  /**
   * iscsit_handle_logout_cmd: the request is ignored unless the connection
   * is logged in; otherwise a command is allocated (`allocOk`), the
   * ExpStatSN of the request is acknowledged unless the reason is connection
   * recovery, and a non-immediate request goes through the CmdSN check while
   * an immediate one is executed at once (`executeOk`).
   */
  function HandleLogoutCmd(connState: ConnState, flags: u8, hdrCid: nat, connCid: nat, immediate: bool,
                           allocOk: bool, cmdsn: CmdSnResult, executeOk: bool): (out: LogoutOutcome)
    ensures connState != LoggedIn <==> out == Ignored
    ensures connState == LoggedIn && !allocOk <==> out == RejectNoResources
    ensures out.Accepted? ==> out.remove == LogoutRemove(LogoutReason(flags), hdrCid, connCid)
    ensures !out.Ignored? && !out.RejectNoResources? ==> (out.acked <==> LogoutReason(flags) != REMOVE_FOR_RECOVERY)
    ensures out.Accepted? <==>
              connState == LoggedIn && allocOk &&
              (if immediate then executeOk else cmdsn in {CmdSnNormal, CmdSnHigherThanExp})
  {
    var reason := LogoutReason(flags);
    if connState != LoggedIn then Ignored
    else if !allocOk then RejectNoResources
    else
      var remove := LogoutRemove(reason, hdrCid, connCid);
      var acked := reason != REMOVE_FOR_RECOVERY;
      if !immediate then
        match cmdsn
        case CmdSnNormal => Accepted(acked, remove)
        case CmdSnHigherThanExp => Accepted(acked, remove)
        case CmdSnLowerThanExp => Dropped(acked)
        case CmdSnCannotRecover => RejectProtocolError(acked)
      else if !executeOk then ExecuteFailed(acked)
      else Accepted(acked, remove)
  }

  /**
   * The logout response a handler leaves in the command before the response
   * is built: a connection close naming a connection that is not found
   * gets CID_NOT_FOUND (iscsit_logout_closeconnection); a recovery removal
   * gets RECOVERY_UNSUPPORTED below error recovery level 2 and
   * CLEANUP_FAILED when it names the connection it arrives on
   * (iscsit_logout_removeconnforrecovery). The command starts out zeroed,
   * that is, SUCCESS.
   */
  function HandlerResponse(reason: nat, sameCid: bool, connFound: bool, erl: nat): (response: nat)
    ensures response in {LOGOUT_SUCCESS, LOGOUT_CID_NOT_FOUND, LOGOUT_RECOVERY_UNSUPPORTED, LOGOUT_CLEANUP_FAILED}
    ensures response == LOGOUT_CID_NOT_FOUND <==> reason == CLOSE_CONNECTION && !sameCid && !connFound
    ensures response == LOGOUT_RECOVERY_UNSUPPORTED <==> reason == REMOVE_FOR_RECOVERY && erl != 2
    ensures response == LOGOUT_CLEANUP_FAILED <==> reason == REMOVE_FOR_RECOVERY && erl == 2 && sameCid
  {
    if reason == CLOSE_CONNECTION && !sameCid && !connFound then LOGOUT_CID_NOT_FOUND
    else if reason == REMOVE_FOR_RECOVERY && erl != 2 then LOGOUT_RECOVERY_UNSUPPORTED
    else if reason == REMOVE_FOR_RECOVERY && sameCid then LOGOUT_CLEANUP_FAILED
    else LOGOUT_SUCCESS
  }

  /**
   * iscsit_send_logout_response: the response put in the Logout Response.
   * A session close always succeeds; a connection close keeps CID_NOT_FOUND;
   * a recovery removal keeps the two errors of its handler and otherwise
   * succeeds exactly when the connection recovery entry is found
   * (`crFound`). An unknown reason builds no response at all.
   */
  function SendLogoutResponse(reason: nat, prior: nat, crFound: bool): (response: Option<nat>)
    ensures response.None? <==> reason !in {CLOSE_SESSION, CLOSE_CONNECTION, REMOVE_FOR_RECOVERY}
    ensures reason == CLOSE_SESSION ==> response == Some(LOGOUT_SUCCESS)
    ensures reason == CLOSE_CONNECTION ==>
              response == Some(if prior == LOGOUT_CID_NOT_FOUND then LOGOUT_CID_NOT_FOUND else LOGOUT_SUCCESS)
    ensures reason == REMOVE_FOR_RECOVERY && prior in {LOGOUT_RECOVERY_UNSUPPORTED, LOGOUT_CLEANUP_FAILED} ==>
              response == Some(prior)
  {
    if reason == CLOSE_SESSION then Some(LOGOUT_SUCCESS)
    else if reason == CLOSE_CONNECTION then
      if prior == LOGOUT_CID_NOT_FOUND then Some(LOGOUT_CID_NOT_FOUND) else Some(LOGOUT_SUCCESS)
    else if reason == REMOVE_FOR_RECOVERY then
      if prior == LOGOUT_RECOVERY_UNSUPPORTED || prior == LOGOUT_CLEANUP_FAILED then Some(prior)
      else if crFound then Some(LOGOUT_SUCCESS)
      else Some(LOGOUT_CID_NOT_FOUND)
    else None
  }

  /**
   * End to end, the Logout Response reports an error exactly when a handler
   * found one or, for a recovery removal, no recovery entry exists; the
   * code is always one of the four of RFC 3720.
   */
  lemma LogoutResponseEndToEnd(reason: nat, sameCid: bool, connFound: bool, erl: nat, crFound: bool)
    requires reason in {CLOSE_SESSION, CLOSE_CONNECTION, REMOVE_FOR_RECOVERY}
    ensures var rsp := SendLogoutResponse(reason, HandlerResponse(reason, sameCid, connFound, erl), crFound);
      && rsp.Some?
      && rsp.value in {LOGOUT_SUCCESS, LOGOUT_CID_NOT_FOUND, LOGOUT_RECOVERY_UNSUPPORTED, LOGOUT_CLEANUP_FAILED}
      && (rsp.value == LOGOUT_SUCCESS <==>
            HandlerResponse(reason, sameCid, connFound, erl) == LOGOUT_SUCCESS &&
            (reason == REMOVE_FOR_RECOVERY ==> crFound))
  {
  }

  // ---------------------------------------------------------------------
  // After the Logout Response
  // ---------------------------------------------------------------------

  /** Work iscsit_logout_post_handler hands on. */
  datatype PostAction =
    | CloseSessionAction   // iscsit_logout_post_handler_closesession
    | CloseSameCid         // iscsit_logout_post_handler_samecid
    | StopOtherConn        // iscsit_logout_post_handler_diffcid
    | NoAction

  /**
   * iscsit_logout_post_handler: the action taken and the value returned,
   * where 0 makes the transmit thread restart. A session close and a close
   * of this very connection return 0; a close of another connection and a
   * recovery removal return 1; an unknown reason returns 0 and does nothing.
   */
  function LogoutPostHandler(reason: nat, response: nat, sameCid: bool): (r: (int, PostAction))
    ensures r.0 in {0, 1}
    ensures r.0 == 1 <==> (reason == CLOSE_CONNECTION && !sameCid) || reason == REMOVE_FOR_RECOVERY
    ensures r.1 == CloseSessionAction <==> reason == CLOSE_SESSION
    ensures r.1 == CloseSameCid <==> reason == CLOSE_CONNECTION && sameCid
    ensures r.1 == StopOtherConn <==> reason == CLOSE_CONNECTION && !sameCid && response == LOGOUT_SUCCESS
  {
    if reason == CLOSE_SESSION then (0, CloseSessionAction)
    else if reason == CLOSE_CONNECTION then
      if sameCid then (0, CloseSameCid)
      else if response == LOGOUT_SUCCESS then (1, StopOtherConn)
      else (1, NoAction)
    else if reason == REMOVE_FOR_RECOVERY then (1, NoAction)
    else (0, NoAction)
  }

  /**
   * The return value of the post handler agrees with the request handler:
   * a request that removed its own connection (LogoutRemove) restarts the
   * transmit thread, and of the known reasons only those do.
   */
  lemma PostHandlerMatchesRemove(reason: nat, response: nat, hdrCid: nat, connCid: nat)
    requires reason in {CLOSE_SESSION, CLOSE_CONNECTION, REMOVE_FOR_RECOVERY}
    ensures LogoutPostHandler(reason, response, hdrCid == connCid).0 == 0 <==> LogoutRemove(reason, hdrCid, connCid)
  {
  }

  // ---------------------------------------------------------------------
  // The session when a connection closes
  // ---------------------------------------------------------------------

  /** Session-wide flags iscsit_close_connection consults. */
  datatype SessFlags = SessFlags(
    errorRecoveryLevel: nat,
    sessionLogout: bool,
    fallBackToErl0: bool,
    reinstatement: bool,
    stopActive: bool,
    continuation: bool,
    sleepOnWait: bool)

  /** What becomes of the session. */
  datatype SessionFate =
    | Untouched                               // other connections carry on
    | StopSession                             // iscsit_stop_session on the others
    | StopInProgress                          // another close already stops the session
    | CloseSession                            // last connection, falling back to ERL 0
    | SessionFreed(wake: bool)                // last connection of a logged-out session
    | SessionFailed(time2retain: bool, wake: bool)

  /**
   * The decision at the end of iscsit_close_connection, once the
   * connection is freed and `nconn` connections remain: the session falls
   * back to ERL 0 when its level is not 2 and nobody logged out; the new
   * value of that flag and the session's fate are returned.
   */
  function CloseConnectionFate(s: SessFlags, connLogout: bool, nconn: nat): (r: (bool, SessionFate))
    ensures r.0 <==> s.fallBackToErl0 || (s.errorRecoveryLevel != 2 && !connLogout && !s.sessionLogout)
    ensures nconn > 0 ==> r.1 in {Untouched, StopSession, StopInProgress}
    ensures nconn > 0 ==> (r.1 == Untouched <==> !s.reinstatement && !r.0)
    ensures r.1 == StopSession <==> nconn > 0 && (s.reinstatement || r.0) && !s.stopActive
    ensures r.1 == CloseSession <==> nconn == 0 && !s.reinstatement && r.0
    ensures r.1.SessionFreed? <==> nconn == 0 && !(!s.reinstatement && r.0) && s.sessionLogout
    ensures r.1.SessionFailed? ==> r.1.time2retain == !s.continuation
    ensures (r.1.SessionFreed? || r.1.SessionFailed?) ==> r.1.wake == s.sleepOnWait
  {
    var fallBack := s.fallBackToErl0 || (s.errorRecoveryLevel != 2 && !connLogout && !s.sessionLogout);
    if nconn > 0 then
      if !s.reinstatement && !fallBack then (fallBack, Untouched)
      else if !s.stopActive then (fallBack, StopSession)
      else (fallBack, StopInProgress)
    else if !s.reinstatement && fallBack then (fallBack, CloseSession)
    else if s.sessionLogout then (fallBack, SessionFreed(s.sleepOnWait))
    else (fallBack, SessionFailed(!s.continuation, s.sleepOnWait))
  }

  /**
   * Below error recovery level 2, a connection that fails without a logout
   * takes the whole session down: the others are stopped, or, when it was
   * the last one, the session is closed (unless a reinstatement is in
   * progress, which ends the session itself).
   */
  lemma NonErl2FailureFailsSession(s: SessFlags, nconn: nat)
    requires s.errorRecoveryLevel != 2 && !s.sessionLogout
    ensures var r := CloseConnectionFate(s, false, nconn);
      && r.0
      && (nconn > 0 ==> r.1 in {StopSession, StopInProgress})
      && (nconn == 0 && !s.reinstatement ==> r.1 == CloseSession)
  {
  }

  /** At error recovery level 2 a failed connection alone leaves the other connections running. */
  lemma Erl2KeepsSession(s: SessFlags, connLogout: bool, nconn: nat)
    requires s.errorRecoveryLevel == 2 && !s.fallBackToErl0 && !s.reinstatement && nconn > 0
    ensures CloseConnectionFate(s, connLogout, nconn) == (false, Untouched)
  {
  }
}
