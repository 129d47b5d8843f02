/** The cumulative counters of a run.  Every adder checks all its additions
    before it changes anything. */
module RuntimeMetrics {
  import opened Machine

  /** The five results a captured packet can have. */
  datatype PacketClass = CLASS_COMPLETE | CLASS_TRUNCATED | CLASS_MALFORMED | CLASS_UNSUPPORTED | CLASS_FLOW_REJECTED

  datatype Totals = Totals(
    packets: U64, captured: U64, wire: U64,
    complete: U64, truncated: U64, malformed: U64, unsupported: U64, flowRejected: U64,
    expired: U64, evicted: U64)
  {
    function Of(c: PacketClass): U64 {
      match c
      case CLASS_COMPLETE => complete
      case CLASS_TRUNCATED => truncated
      case CLASS_MALFORMED => malformed
      case CLASS_UNSUPPORTED => unsupported
      case CLASS_FLOW_REJECTED => flowRejected
    }

    predicate ClassesWithin(n: int) {
      complete <= n && truncated <= n && malformed <= n && unsupported <= n && flowRejected <= n
    }

    /** One packet of class `c` more. */
    lemma OneMore(next: Totals, c: PacketClass, n: int)
      requires ClassesWithin(n - 1) && forall d :: next.Of(d) == Of(d) + if d == c then 1 else 0
      ensures next.ClassesWithin(n)
    {
      assert next.complete == next.Of(CLASS_COMPLETE) && next.truncated == next.Of(CLASS_TRUNCATED);
      assert next.malformed == next.Of(CLASS_MALFORMED) && next.unsupported == next.Of(CLASS_UNSUPPORTED);
      assert next.flowRejected == next.Of(CLASS_FLOW_REJECTED);
    }
  }

  const NO_TOTALS := Totals(0, 0, 0, 0, 0, 0, 0, 0, 0, 0)

  class Metrics {
    var totals: Totals

    constructor ()
      ensures totals == NO_TOTALS
    {
      totals := NO_TOTALS;
    }

    method AddPacket(captured: U32, wire: U32) returns (code: Errno)
      modifies this
      ensures code == if old(totals).packets + 1 <= U64_MAX && old(totals).captured + captured <= U64_MAX
                         && old(totals).wire + wire <= U64_MAX then OK else EOVERFLOW
      ensures totals == if code == OK then
                          old(totals).(packets := old(totals).packets + 1, captured := old(totals).captured + captured,
                                       wire := old(totals).wire + wire)
                        else old(totals)
    {
      if totals.packets == U64_MAX || totals.captured > U64_MAX - captured || totals.wire > U64_MAX - wire {
        return EOVERFLOW;
      }
      totals := totals.(packets := totals.packets + 1, captured := totals.captured + captured,
                        wire := totals.wire + wire);
      return OK;
    }

    method AddPacketResult(c: PacketClass) returns (code: Errno)
      modifies this
      ensures code == if old(totals).Of(c) < U64_MAX then OK else EOVERFLOW
      ensures code != OK ==> totals == old(totals)
      ensures code == OK ==>
                var t := old(totals);
                match c
                case CLASS_COMPLETE => totals == t.(complete := t.complete + 1)
                case CLASS_TRUNCATED => totals == t.(truncated := t.truncated + 1)
                case CLASS_MALFORMED => totals == t.(malformed := t.malformed + 1)
                case CLASS_UNSUPPORTED => totals == t.(unsupported := t.unsupported + 1)
                case CLASS_FLOW_REJECTED => totals == t.(flowRejected := t.flowRejected + 1)
      ensures code == OK ==>
                && (forall d :: totals.Of(d) == old(totals).Of(d) + if d == c then 1 else 0)
                && totals.packets == old(totals).packets
                && totals.captured == old(totals).captured && totals.wire == old(totals).wire
                && totals.expired == old(totals).expired && totals.evicted == old(totals).evicted
    {
      if totals.Of(c) == U64_MAX {
        return EOVERFLOW;
      }
      match c {
        case CLASS_COMPLETE => totals := totals.(complete := totals.complete + 1);
        case CLASS_TRUNCATED => totals := totals.(truncated := totals.truncated + 1);
        case CLASS_MALFORMED => totals := totals.(malformed := totals.malformed + 1);
        case CLASS_UNSUPPORTED => totals := totals.(unsupported := totals.unsupported + 1);
        case CLASS_FLOW_REJECTED => totals := totals.(flowRejected := totals.flowRejected + 1);
      }
      return OK;
    }

    method AddExpiredFlows(n: U64) returns (code: Errno)
      modifies this
      ensures code == if old(totals).expired + n <= U64_MAX then OK else EOVERFLOW
      ensures totals == if code == OK then old(totals).(expired := old(totals).expired + n) else old(totals)
    {
      if totals.expired > U64_MAX - n {
        return EOVERFLOW;
      }
      totals := totals.(expired := totals.expired + n);
      return OK;
    }

    method AddEvictedFlows(n: U64) returns (code: Errno)
      modifies this
      ensures code == if old(totals).evicted + n <= U64_MAX then OK else EOVERFLOW
      ensures totals == if code == OK then old(totals).(evicted := old(totals).evicted + n) else old(totals)
    {
      if totals.evicted > U64_MAX - n {
        return EOVERFLOW;
      }
      totals := totals.(evicted := totals.evicted + n);
      return OK;
    }
  }
}
