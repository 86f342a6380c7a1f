/**
 * The Ready To Transfer requests iscsit_build_r2ts_for_cmd queues for a
 * WRITE (section 10.8 of RFC 3720), stated as functions of the command's
 * counters: the R2Ts of one call, the new `r2t_offset`, and whether the
 * last R2T of the command has gone out.
 */
module R2tPlan {
  import opened Common

  /** One queued R2T: the offset and length of the data it asks for. */
  datatype R2T = R2T(offset: u32, xferLen: u32)

  /** R2Ts of a call, the `r2t_offset` left behind, and ICF_SENT_LAST_R2T. */
  datatype Plan = Plan(r2ts: seq<R2T>, offset: u32, last: bool)

  /**
   * The length of the R2T at `offset` in sequence order: a full burst,
   * or what is left of the data when the burst would run past it. As
   * written (`fixed` false) `offset + burst` is an unsigned 32-bit sum that
   * wraps, and so is `data_length - offset`.
   */
  function XferLen(offset: u32, burst: u32, dataLength: u32, fixed: bool): u32 {
    var past := if fixed then offset + burst > dataLength else (offset + burst) % U32_MOD > dataLength;
    if past then (dataLength - offset) % U32_MOD else burst
  }

  /**
   * The loop of iscsit_build_r2ts_for_cmd when DataSequenceInOrder=Yes,
   * from `offset` with room for `budget` more outstanding R2Ts: the first
   * R2T is at most `burst` long and the others at most `maxBurst`; each
   * advances the offset, and the loop stops once the offset reaches the
   * data length.
   */
  function InOrderPlan(offset: u32, dataLength: u32, burst: u32, maxBurst: u32, budget: nat, fixed: bool): (p: Plan)
    ensures |p.r2ts| <= budget
    ensures p.last ==> p.offset == dataLength && |p.r2ts| > 0
    ensures !p.last ==> |p.r2ts| == budget
    ensures budget == 0 ==> p == Plan([], offset, false)
    decreases budget
  {
    if budget == 0 then Plan([], offset, false)
    else
      var x := XferLen(offset, burst, dataLength, fixed);
      var next := (offset + x) % U32_MOD;
      if next == dataLength then Plan([R2T(offset, x)], next, true)
      else
        var rest := InOrderPlan(next, dataLength, maxBurst, maxBurst, budget - 1, fixed);
        Plan([R2T(offset, x)] + rest.r2ts, rest.offset, rest.last)
  }

  /**
   * One pass of the sequence-order loop after `prefix` was queued: an R2T
   * of `x` bytes at `offset`, then either the last R2T or the rest of the
   * loop from `next`.
   */
  lemma InOrderPlanStep(prefix: seq<R2T>, offset: u32, dataLength: u32, burst: u32, maxBurst: u32, budget: nat,
                        fixed: bool, x: u32, next: u32)
    requires budget > 0
    requires x == XferLen(offset, burst, dataLength, fixed) && next == (offset + x) % U32_MOD
    ensures var q := InOrderPlan(offset, dataLength, burst, maxBurst, budget, fixed);
      next == dataLength ==> Plan(prefix + q.r2ts, q.offset, q.last) == Plan(prefix + [R2T(offset, x)], next, true)
    ensures var q := InOrderPlan(offset, dataLength, burst, maxBurst, budget, fixed);
      var rest := InOrderPlan(next, dataLength, maxBurst, maxBurst, budget - 1, fixed);
      next != dataLength ==>
        Plan(prefix + q.r2ts, q.offset, q.last) == Plan((prefix + [R2T(offset, x)]) + rest.r2ts, rest.offset, rest.last)
  {
    var rest := InOrderPlan(next, dataLength, maxBurst, maxBurst, budget - 1, fixed);
    assert prefix + ([R2T(offset, x)] + rest.r2ts) == (prefix + [R2T(offset, x)]) + rest.r2ts;
  }

  /** The R2Ts follow one another without gap or overlap from `start` on. */
  predicate Contiguous(start: int, rs: seq<R2T>) {
    && (|rs| > 0 ==> rs[0].offset == start)
    && (forall k :: 0 <= k < |rs| - 1 ==> rs[k + 1].offset == rs[k].offset + rs[k].xferLen)
  }

  /** Where the data asked for by `rs` ends, or `start` when there is none. */
  function EndOf(start: int, rs: seq<R2T>): int {
    if |rs| == 0 then start else rs[|rs| - 1].offset + rs[|rs| - 1].xferLen
  }

  /**
   * With the sums computed exactly, the R2Ts of a call start at the old
   * `r2t_offset` and follow one another without gap, `r2t_offset` is left
   * where the last one ends and never passes the data length, and
   * ICF_SENT_LAST_R2T is set exactly when it reaches the data length.
   */
  lemma {:induction false} InOrderPlanContiguous(offset: u32, dataLength: u32, burst: u32, maxBurst: u32, budget: nat)
    requires offset <= dataLength
    ensures var p := InOrderPlan(offset, dataLength, burst, maxBurst, budget, true);
      && Contiguous(offset, p.r2ts)
      && p.offset == EndOf(offset, p.r2ts)
      && offset <= p.offset <= dataLength
      && (p.last <==> |p.r2ts| > 0 && p.offset == dataLength)
    decreases budget
  {
    var p := InOrderPlan(offset, dataLength, burst, maxBurst, budget, true);
    if budget > 0 {
      var x := XferLen(offset, burst, dataLength, true);
      var next := (offset + x) % U32_MOD;
      ExactXferLen(offset, burst, dataLength);
      if next == dataLength {
        assert p == Plan([R2T(offset, x)], next, true);
      } else {
        InOrderPlanContiguous(next, dataLength, maxBurst, maxBurst, budget - 1);
        var rest := InOrderPlan(next, dataLength, maxBurst, maxBurst, budget - 1, true);
        assert p == Plan([R2T(offset, x)] + rest.r2ts, rest.offset, rest.last);
        ContiguousCons(R2T(offset, x), rest.r2ts);
      }
    }
  }

  /** With exact sums an R2T from `offset` never runs past the data length. */
  lemma ExactXferLen(offset: u32, burst: u32, dataLength: u32)
    requires offset <= dataLength
    ensures var x := XferLen(offset, burst, dataLength, true);
      x <= dataLength - offset && (offset + x) % U32_MOD == offset + x
  {
  }

  /** An R2T followed by R2Ts that start where it ends. */
  lemma ContiguousCons(r: R2T, rest: seq<R2T>)
    requires Contiguous(r.offset + r.xferLen, rest)
    ensures Contiguous(r.offset, [r] + rest)
    ensures EndOf(r.offset, [r] + rest) == EndOf(r.offset + r.xferLen, rest)
  {
    var rs := [r] + rest;
    forall k | 0 <= k < |rs| - 1
      ensures rs[k + 1].offset == rs[k].offset + rs[k].xferLen
    {
      if k > 0 {
        assert rs[k] == rest[k - 1] && rs[k + 1] == rest[k];
      }
    }
  }

  /**
   * With the sums computed exactly, no R2T asks for more than one burst
   * (the first for at most `burst`) nor for data past the data length.
   */
  lemma {:induction false} InOrderPlanBounded(offset: u32, dataLength: u32, burst: u32, maxBurst: u32, budget: nat)
    requires offset <= dataLength
    ensures var p := InOrderPlan(offset, dataLength, burst, maxBurst, budget, true);
      && (forall k :: 0 <= k < |p.r2ts| ==> p.r2ts[k].offset + p.r2ts[k].xferLen <= dataLength)
      && (|p.r2ts| > 0 ==> p.r2ts[0].xferLen <= burst)
      && (forall k :: 0 < k < |p.r2ts| ==> p.r2ts[k].xferLen <= maxBurst)
    decreases budget
  {
    var p := InOrderPlan(offset, dataLength, burst, maxBurst, budget, true);
    if budget > 0 {
      var x := XferLen(offset, burst, dataLength, true);
      var next := (offset + x) % U32_MOD;
      assert next == offset + x;
      if next != dataLength {
        InOrderPlanBounded(next, dataLength, maxBurst, maxBurst, budget - 1);
        var rest := InOrderPlan(next, dataLength, maxBurst, maxBurst, budget - 1, true);
        assert p.r2ts == [R2T(offset, x)] + rest.r2ts;
        forall k | 0 < k < |p.r2ts|
          ensures p.r2ts[k] == rest.r2ts[k - 1]
        {
        }
      }
    }
  }

  /** When no sum can wrap, the code as written plans what the exact sums plan. */
  lemma {:induction false} InOrderPlanNoWrap(offset: u32, dataLength: u32, burst: u32, maxBurst: u32, budget: nat)
    requires offset <= dataLength
    requires dataLength + burst < U32_MOD && dataLength + maxBurst < U32_MOD
    ensures InOrderPlan(offset, dataLength, burst, maxBurst, budget, false)
            == InOrderPlan(offset, dataLength, burst, maxBurst, budget, true)
    decreases budget
  {
    if budget > 0 {
      var x := XferLen(offset, burst, dataLength, true);
      assert XferLen(offset, burst, dataLength, false) == x;
      var next := (offset + x) % U32_MOD;
      if next != dataLength {
        InOrderPlanNoWrap(next, dataLength, maxBurst, maxBurst, budget - 1);
      }
    }
  }

  /**
   * As written, with a data length of 0xffffffff and 4 KiB left from offset
   * 0xfffff000, a MaxBurstLength of 64 KiB makes `offset + burst` wrap to
   * 0xf000, so the R2T asks for a whole burst past the end of the data; the
   * exact sum asks for the 0xfff bytes that remain.
   */
  lemma R2tPastDataLength()
    ensures InOrderPlan(0xFFFF_F000, 0xFFFF_FFFF, 0x1_0000, 0x1_0000, 1, false).r2ts == [R2T(0xFFFF_F000, 0x1_0000)]
    ensures InOrderPlan(0xFFFF_F000, 0xFFFF_FFFF, 0x1_0000, 0x1_0000, 1, true).r2ts == [R2T(0xFFFF_F000, 0xFFF)]
  {
  }

  // ---------------------------------------------------------------------
  // DataSequenceInOrder=No
  // ---------------------------------------------------------------------

  /**
   * What iscsit_get_seq_holder_for_r2t, which is not part of this model,
   * hands back: the offset and length of the next sequence to solicit and
   * the command's `seq_send_order` after the lookup.
   */
  datatype SeqHolder = SeqHolder(offset: u32, xferLen: u32, sendOrder: u32)

  /** R2Ts of a call out of sequence order, whether a lookup failed, and the send order reached. */
  datatype SeqPlan = SeqPlan(r2ts: seq<R2T>, last: bool, failed: bool, sendOrder: u32)

  /**
   * The loop of iscsit_build_r2ts_for_cmd when DataSequenceInOrder=No:
   * each pass asks for the next sequence (the successive answers are
   * `lookups`), queues an R2T for it, and stops once the send order reaches
   * the sequence count, when a lookup fails, or when `budget` R2Ts are out.
   */
  function OutOfOrderPlan(lookups: seq<Option<SeqHolder>>, seqCount: u32, sendOrder: u32, budget: nat): (p: SeqPlan)
    ensures |p.r2ts| <= budget && |p.r2ts| <= |lookups|
    ensures p.failed ==> !p.last
    ensures !p.failed && !p.last ==> |p.r2ts| == budget
    decreases budget
  {
    if budget == 0 then SeqPlan([], false, false, sendOrder)
    else if |lookups| == 0 || lookups[0].None? then SeqPlan([], false, true, sendOrder)
    else
      var h := lookups[0].value;
      if h.sendOrder == seqCount then SeqPlan([R2T(h.offset, h.xferLen)], true, false, h.sendOrder)
      else
        var rest := OutOfOrderPlan(lookups[1..], seqCount, h.sendOrder, budget - 1);
        SeqPlan([R2T(h.offset, h.xferLen)] + rest.r2ts, rest.last, rest.failed, rest.sendOrder)
  }

  /** One pass of the loop out of sequence order, after a lookup that succeeds. */
  lemma OutOfOrderPlanStep(prefix: seq<R2T>, lookups: seq<Option<SeqHolder>>, seqCount: u32, sendOrder: u32, budget: nat)
    requires budget > 0 && |lookups| > 0 && lookups[0].Some?
    ensures var h := lookups[0].value;
      var q := OutOfOrderPlan(lookups, seqCount, sendOrder, budget);
      h.sendOrder == seqCount ==>
        SeqPlan(prefix + q.r2ts, q.last, q.failed, q.sendOrder)
        == SeqPlan(prefix + [R2T(h.offset, h.xferLen)], true, false, h.sendOrder)
    ensures var h := lookups[0].value;
      var q := OutOfOrderPlan(lookups, seqCount, sendOrder, budget);
      var rest := OutOfOrderPlan(lookups[1..], seqCount, h.sendOrder, budget - 1);
      h.sendOrder != seqCount ==>
        SeqPlan(prefix + q.r2ts, q.last, q.failed, q.sendOrder)
        == SeqPlan((prefix + [R2T(h.offset, h.xferLen)]) + rest.r2ts, rest.last, rest.failed, rest.sendOrder)
  {
    var h := lookups[0].value;
    var rest := OutOfOrderPlan(lookups[1..], seqCount, h.sendOrder, budget - 1);
    assert prefix + ([R2T(h.offset, h.xferLen)] + rest.r2ts) == (prefix + [R2T(h.offset, h.xferLen)]) + rest.r2ts;
  }

  /**
   * Out of sequence order the R2Ts are exactly the sequences handed out,
   * in the order they were handed out.
   */
  lemma {:induction false} OutOfOrderPlanFollowsLookups(lookups: seq<Option<SeqHolder>>, seqCount: u32, sendOrder: u32, budget: nat)
    ensures var p := OutOfOrderPlan(lookups, seqCount, sendOrder, budget);
      forall k :: 0 <= k < |p.r2ts| ==>
        lookups[k].Some? && p.r2ts[k] == R2T(lookups[k].value.offset, lookups[k].value.xferLen)
    decreases budget
  {
    var p := OutOfOrderPlan(lookups, seqCount, sendOrder, budget);
    if budget > 0 && |lookups| > 0 && lookups[0].Some? && lookups[0].value.sendOrder != seqCount {
      var h := lookups[0].value;
      OutOfOrderPlanFollowsLookups(lookups[1..], seqCount, h.sendOrder, budget - 1);
      var rest := OutOfOrderPlan(lookups[1..], seqCount, h.sendOrder, budget - 1);
      forall k | 0 < k < |p.r2ts|
        ensures lookups[k].Some? && p.r2ts[k] == R2T(lookups[k].value.offset, lookups[k].value.xferLen)
      {
        assert p.r2ts[k] == rest.r2ts[k - 1];
        assert lookups[1..][k - 1] == lookups[k];
      }
    }
  }

  /** The loop out of sequence order stops as the last sequence once the send order reaches the sequence count. */
  lemma {:induction false} OutOfOrderPlanLast(lookups: seq<Option<SeqHolder>>, seqCount: u32, sendOrder: u32, budget: nat)
    ensures var p := OutOfOrderPlan(lookups, seqCount, sendOrder, budget);
      p.last ==> p.sendOrder == seqCount
    decreases budget
  {
    if budget > 0 && |lookups| > 0 && lookups[0].Some? && lookups[0].value.sendOrder != seqCount {
      OutOfOrderPlanLast(lookups[1..], seqCount, lookups[0].value.sendOrder, budget - 1);
    }
  }
}
