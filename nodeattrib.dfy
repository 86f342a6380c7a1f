/**
 * Per-initiator node attributes of an iSCSI node ACL: their defaults and
 * the range-checked setters used by the configuration interface.
 *
 * The NA_* limits live in iscsi_target_core.h, which is not part of this
 * model; the values below are those of the kernel header of the same
 * release. Every property proved here depends only on each default lying
 * inside its own range.
 */
module NodeAttrib {
  import opened Common
  import opened IscsiTypes

  const NA_DATAOUT_TIMEOUT: u32 := 3
  const NA_DATAOUT_TIMEOUT_MAX: u32 := 60
  const NA_DATAOUT_TIMEOUT_MIX: u32 := 2
  const NA_DATAOUT_TIMEOUT_RETRIES: u32 := 5
  const NA_DATAOUT_TIMEOUT_RETRIES_MAX: u32 := 15
  const NA_DATAOUT_TIMEOUT_RETRIES_MIN: u32 := 1
  const NA_NOPIN_TIMEOUT: u32 := 5
  const NA_NOPIN_TIMEOUT_MAX: u32 := 60
  const NA_NOPIN_TIMEOUT_MIN: u32 := 3
  const NA_NOPIN_RESPONSE_TIMEOUT: u32 := 5
  const NA_NOPIN_RESPONSE_TIMEOUT_MAX: u32 := 60
  const NA_NOPIN_RESPONSE_TIMEOUT_MIN: u32 := 3
  const NA_RANDOM_DATAIN_PDU_OFFSETS: u32 := 0
  const NA_RANDOM_DATAIN_SEQ_OFFSETS: u32 := 0
  const NA_RANDOM_R2T_OFFSETS: u32 := 0
  const NA_DEFAULT_ERL: u32 := 0

  /** The values each setter accepts. */
  predicate DataoutTimeoutOk(v: int) { NA_DATAOUT_TIMEOUT_MIX <= v <= NA_DATAOUT_TIMEOUT_MAX }
  predicate DataoutTimeoutRetriesOk(v: int) {
    NA_DATAOUT_TIMEOUT_RETRIES_MIN <= v <= NA_DATAOUT_TIMEOUT_RETRIES_MAX
  }
  /** Zero disables the NOP-In timer; otherwise the timeout is range checked. */
  predicate NopinTimeoutOk(v: int) { v == 0 || NA_NOPIN_TIMEOUT_MIN <= v <= NA_NOPIN_TIMEOUT_MAX }
  predicate NopinResponseTimeoutOk(v: int) {
    NA_NOPIN_RESPONSE_TIMEOUT_MIN <= v <= NA_NOPIN_RESPONSE_TIMEOUT_MAX
  }
  predicate FlagOk(v: int) { v == 0 || v == 1 }
  predicate ErlOk(v: int) { v == 0 || v == 1 || v == 2 }

  /** A snapshot of the eight attributes, in declaration order. */
  datatype Attribs = Attribs(
    dataoutTimeout: u32,
    dataoutTimeoutRetries: u32,
    nopinTimeout: u32,
    nopinResponseTimeout: u32,
    randomDataInPduOffsets: u32,
    randomDataInSeqOffsets: u32,
    randomR2TOffsets: u32,
    defaultErl: u32)

  predicate AttribsOk(a: Attribs) {
    && DataoutTimeoutOk(a.dataoutTimeout)
    && DataoutTimeoutRetriesOk(a.dataoutTimeoutRetries)
    && NopinTimeoutOk(a.nopinTimeout)
    && NopinResponseTimeoutOk(a.nopinResponseTimeout)
    && FlagOk(a.randomDataInPduOffsets)
    && FlagOk(a.randomDataInSeqOffsets)
    && FlagOk(a.randomR2TOffsets)
    && ErlOk(a.defaultErl)
  }

  /** The defaults installed by iscsit_set_default_node_attribues. */
  function DefaultAttribs(): (a: Attribs)
    ensures AttribsOk(a)
  {
    Attribs(NA_DATAOUT_TIMEOUT, NA_DATAOUT_TIMEOUT_RETRIES, NA_NOPIN_TIMEOUT,
            NA_NOPIN_RESPONSE_TIMEOUT, NA_RANDOM_DATAIN_PDU_OFFSETS,
            NA_RANDOM_DATAIN_SEQ_OFFSETS, NA_RANDOM_R2T_OFFSETS, NA_DEFAULT_ERL)
  }

  /** Indices of the logged-in connections, in list order. */
  function LoggedInIndices(states: seq<ConnState>, from: nat): (r: seq<nat>)
    requires from <= |states|
    decreases |states| - from
  {
    if from == |states| then []
    else if states[from] == LoggedIn then [from] + LoggedInIndices(states, from + 1)
    else LoggedInIndices(states, from + 1)
  }

  /**
   * The NOP-In timer is restarted exactly on the logged-in connections,
   * each at most once and in list order.
   */
  lemma {:induction false} LoggedInIndicesExact(states: seq<ConnState>, from: nat)
    requires from <= |states|
    ensures forall i :: i in LoggedInIndices(states, from) <==> from <= i < |states| && states[i] == LoggedIn
    ensures forall k, l :: 0 <= k < l < |LoggedInIndices(states, from)| ==>
              LoggedInIndices(states, from)[k] < LoggedInIndices(states, from)[l]
    decreases |states| - from
  {
    if from < |states| {
      LoggedInIndicesExact(states, from + 1);
      var rest := LoggedInIndices(states, from + 1);
      forall l | 0 <= l < |rest|
        ensures from < rest[l]
      {
        assert rest[l] in rest;
      }
    }
  }

  /**
   * The attributes of one node ACL. `sessConns` holds the states of the
   * connections of the ACL's active session, if there is one.
   */
  class NodeAcl {
    var dataoutTimeout: u32
    var dataoutTimeoutRetries: u32
    var nopinTimeout: u32
    var nopinResponseTimeout: u32
    var randomDataInPduOffsets: u32
    var randomDataInSeqOffsets: u32
    var randomR2TOffsets: u32
    var defaultErl: u32
    var sessConns: Option<seq<ConnState>>

    ghost function Attrs(): Attribs
      reads this
    {
      Attribs(dataoutTimeout, dataoutTimeoutRetries, nopinTimeout, nopinResponseTimeout,
              randomDataInPduOffsets, randomDataInSeqOffsets, randomR2TOffsets, defaultErl)
    }

    /** Every attribute lies in the range its setter enforces. */
    ghost predicate Valid()
      reads this
    {
      AttribsOk(Attrs())
    }

    constructor(sess: Option<seq<ConnState>>)
      ensures Attrs() == DefaultAttribs() && Valid()
      ensures sessConns == sess
    {
      sessConns := sess;
      new;
      SetDefaultNodeAttributes();
    }

    /** iscsit_set_default_node_attribues */
    method SetDefaultNodeAttributes()
      modifies this
      ensures Attrs() == DefaultAttribs() && Valid()
      ensures sessConns == old(sessConns)
    {
      dataoutTimeout := NA_DATAOUT_TIMEOUT;
      dataoutTimeoutRetries := NA_DATAOUT_TIMEOUT_RETRIES;
      nopinTimeout := NA_NOPIN_TIMEOUT;
      nopinResponseTimeout := NA_NOPIN_RESPONSE_TIMEOUT;
      randomDataInPduOffsets := NA_RANDOM_DATAIN_PDU_OFFSETS;
      randomDataInSeqOffsets := NA_RANDOM_DATAIN_SEQ_OFFSETS;
      randomR2TOffsets := NA_RANDOM_R2T_OFFSETS;
      defaultErl := NA_DEFAULT_ERL;
    }

    /** iscsit_na_dataout_timeout */
    method SetDataoutTimeout(v: u32) returns (rc: int)
      modifies this
      ensures rc == 0 <==> DataoutTimeoutOk(v)
      ensures rc != 0 ==> rc == -EINVAL && Attrs() == old(Attrs())
      ensures rc == 0 ==> Attrs() == old(Attrs()).(dataoutTimeout := v)
      ensures sessConns == old(sessConns)
      ensures old(Valid()) ==> Valid()
    {
      if v > NA_DATAOUT_TIMEOUT_MAX {
        return -EINVAL;
      } else if v < NA_DATAOUT_TIMEOUT_MIX {
        return -EINVAL;
      }
      dataoutTimeout := v;
      return 0;
    }

    /** iscsit_na_dataout_timeout_retries */
    method SetDataoutTimeoutRetries(v: u32) returns (rc: int)
      modifies this
      ensures rc == 0 <==> DataoutTimeoutRetriesOk(v)
      ensures rc != 0 ==> rc == -EINVAL && Attrs() == old(Attrs())
      ensures rc == 0 ==> Attrs() == old(Attrs()).(dataoutTimeoutRetries := v)
      ensures sessConns == old(sessConns)
      ensures old(Valid()) ==> Valid()
    {
      if v > NA_DATAOUT_TIMEOUT_RETRIES_MAX {
        return -EINVAL;
      } else if v < NA_DATAOUT_TIMEOUT_RETRIES_MIN {
        return -EINVAL;
      }
      dataoutTimeoutRetries := v;
      return 0;
    }

    /**
     * iscsit_na_nopin_timeout. When the timeout was 0 (timer disabled) and
     * the ACL has an active session, the NOP-In timer is started again on
     * every logged-in connection of that session; `restarted` lists those
     * connections by their position in the session's connection list.
     */
    method SetNopinTimeout(v: u32) returns (rc: int, restarted: seq<nat>)
      modifies this
      ensures rc == 0 <==> NopinTimeoutOk(v)
      ensures rc != 0 ==> rc == -EINVAL && Attrs() == old(Attrs()) && restarted == []
      ensures rc == 0 ==> Attrs() == old(Attrs()).(nopinTimeout := v)
      ensures rc == 0 && old(nopinTimeout) == 0 && sessConns.Some? ==>
                restarted == LoggedInIndices(sessConns.value, 0)
      ensures old(nopinTimeout) != 0 || sessConns.None? ==> restarted == []
      ensures sessConns == old(sessConns)
      ensures old(Valid()) ==> Valid()
    {
      var origNopinTimeout := nopinTimeout;
      if v > NA_NOPIN_TIMEOUT_MAX {
        return -EINVAL, [];
      } else if v < NA_NOPIN_TIMEOUT_MIN && v != 0 {
        return -EINVAL, [];
      }
      nopinTimeout := v;
      restarted := [];
      if origNopinTimeout == 0 {
        match sessConns
        case None =>
        case Some(conns) =>
          var i := 0;
          while i < |conns|
            invariant 0 <= i <= |conns|
            invariant restarted + LoggedInIndices(conns, i) == LoggedInIndices(conns, 0)
          {
            if conns[i] == LoggedIn {
              restarted := restarted + [i];
            }
            i := i + 1;
          }
      }
      return 0, restarted;
    }

    /** iscsit_na_nopin_response_timeout */
    method SetNopinResponseTimeout(v: u32) returns (rc: int)
      modifies this
      ensures rc == 0 <==> NopinResponseTimeoutOk(v)
      ensures rc != 0 ==> rc == -EINVAL && Attrs() == old(Attrs())
      ensures rc == 0 ==> Attrs() == old(Attrs()).(nopinResponseTimeout := v)
      ensures sessConns == old(sessConns)
      ensures old(Valid()) ==> Valid()
    {
      if v > NA_NOPIN_RESPONSE_TIMEOUT_MAX {
        return -EINVAL;
      } else if v < NA_NOPIN_RESPONSE_TIMEOUT_MIN {
        return -EINVAL;
      }
      nopinResponseTimeout := v;
      return 0;
    }

    /** iscsit_na_random_datain_pdu_offsets */
    method SetRandomDataInPduOffsets(v: u32) returns (rc: int)
      modifies this
      ensures rc == 0 <==> FlagOk(v)
      ensures rc != 0 ==> rc == -EINVAL && Attrs() == old(Attrs())
      ensures rc == 0 ==> Attrs() == old(Attrs()).(randomDataInPduOffsets := v)
      ensures sessConns == old(sessConns)
      ensures old(Valid()) ==> Valid()
    {
      if v != 0 && v != 1 {
        return -EINVAL;
      }
      randomDataInPduOffsets := v;
      return 0;
    }

    /** iscsit_na_random_datain_seq_offsets */
    method SetRandomDataInSeqOffsets(v: u32) returns (rc: int)
      modifies this
      ensures rc == 0 <==> FlagOk(v)
      ensures rc != 0 ==> rc == -EINVAL && Attrs() == old(Attrs())
      ensures rc == 0 ==> Attrs() == old(Attrs()).(randomDataInSeqOffsets := v)
      ensures sessConns == old(sessConns)
      ensures old(Valid()) ==> Valid()
    {
      if v != 0 && v != 1 {
        return -EINVAL;
      }
      randomDataInSeqOffsets := v;
      return 0;
    }

    /** iscsit_na_random_r2t_offsets */
    method SetRandomR2TOffsets(v: u32) returns (rc: int)
      modifies this
      ensures rc == 0 <==> FlagOk(v)
      ensures rc != 0 ==> rc == -EINVAL && Attrs() == old(Attrs())
      ensures rc == 0 ==> Attrs() == old(Attrs()).(randomR2TOffsets := v)
      ensures sessConns == old(sessConns)
      ensures old(Valid()) ==> Valid()
    {
      if v != 0 && v != 1 {
        return -EINVAL;
      }
      randomR2TOffsets := v;
      return 0;
    }

    /** iscsit_na_default_erl */
    method SetDefaultErl(v: u32) returns (rc: int)
      modifies this
      ensures rc == 0 <==> ErlOk(v)
      ensures rc != 0 ==> rc == -EINVAL && Attrs() == old(Attrs())
      ensures rc == 0 ==> Attrs() == old(Attrs()).(defaultErl := v)
      ensures sessConns == old(sessConns)
      ensures old(Valid()) ==> Valid()
    {
      if v != 0 && v != 1 && v != 2 {
        return -EINVAL;
      }
      defaultErl := v;
      return 0;
    }
  }
}
