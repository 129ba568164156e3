/**
 * A connection's life as a sequence of estimator calls. The run keeps the
 * outstanding items by start sequence number, so a delivery refers to the
 * item exactly as its last send left it.
 */
module Trace {
  import opened Wrappers
  import opened Units
  import opened TxItem
  import opened RateSample
  import opened TieBreak
  import opened TcpRateLinux

  datatype Event =
    | Sent(item: TcpTxItem, isStartOfTransmission: bool, now: Time)
    | Delivered(startSeq: u32, now: Time)
    | AppLimited(inputs: AppLimitedInputs)
    | Generated(delivered: u32, lost: u32, isSackReneg: bool, minRtt: Time, now: Time)

  /** The collaborator-supplied parts of the estimator. */
  datatype Hooks = Hooks(
    detector: (AppLimitedInputs, TcpRate) -> u32,
    measure: (TcpRateSample, TcpRate, Time, Time) -> Timing,
    rateOf: (u32, Time) -> u64)

  /**
   * The estimator, the items by start sequence number, and the bytes of the
   * deliveries accepted so far.
   */
  datatype RunState = RunState(est: Estimator, items: map<u32, TcpTxItem>, deliveredBytes: nat)

  function Step(st: RunState, ev: Event, hooks: Hooks): Result<RunState, DeliveryError> {
    match ev
    case Sent(item, start, now) =>
      // the item's send time is the clock of its send event
      var (e, sent) := SkbSent(st.est, item.(lastSent := now), start, now);
      Success(st.(est := e, items := st.items[item.startSeq := sent]))
    case Delivered(id, now) =>
      if id !in st.items then Failure(NeverSent)
      else
        (match SkbDelivered(st.est, st.items[id], now)
         case Success(p) => Success(RunState(p.0, st.items[id := p.1], st.deliveredBytes + st.items[id].seqSize))
         case Failure(e) => Failure(e))
    case AppLimited(inputs) => Success(st.(est := CalculateAppLimited(st.est, inputs, hooks.detector)))
    case Generated(delivered, lost, reneg, minRtt, now) =>
      Success(st.(est := SampleGen(st.est, delivered, lost, reneg, minRtt, now, hooks.measure, hooks.rateOf).0))
  }

  /** The events applied in order, stopping at the first refused delivery. */
  function Run(st: RunState, evs: seq<Event>, hooks: Hooks): Result<RunState, DeliveryError>
    decreases |evs|
  {
    if |evs| == 0 then Success(st)
    else
      match Step(st, evs[0], hooks)
      case Failure(e) => Failure(e)
      case Success(st1) => Run(st1, evs[1..], hooks)
  }

  /** The simulator clock, as read by the events, never goes back below `t`. */
  predicate ClockFrom(t: Time, evs: seq<Event>)
    decreases |evs|
  {
    if |evs| == 0 then true
    else
      match evs[0]
      case Sent(_, _, now) => t <= now && ClockFrom(now, evs[1..])
      case Delivered(_, now) => t <= now && ClockFrom(now, evs[1..])
      case Generated(_, _, _, _, now) => t <= now && ClockFrom(now, evs[1..])
      case AppLimited(_) => ClockFrom(t, evs[1..])
  }

  /** Along any accepted run on a clock that never goes back, the delivered time never decreases. */
  lemma {:induction false} RunDeliveredTimeMonotone(st: RunState, evs: seq<Event>, hooks: Hooks, t: Time)
    requires st.est.rate.deliveredTime <= t && ClockFrom(t, evs)
    ensures Run(st, evs, hooks).Success? ==>
              st.est.rate.deliveredTime <= Run(st, evs, hooks).value.est.rate.deliveredTime
    decreases |evs|
  {
    if |evs| > 0 && Step(st, evs[0], hooks).Success? {
      var t1 := if evs[0].AppLimited? then t else evs[0].now;
      RunDeliveredTimeMonotone(Step(st, evs[0], hooks).value, evs[1..], hooks, t1);
    }
  }

  /** Equal residues stay equal when equal residues are added to both sides. */
  lemma AddResidues(x: int, y: int, u: int, v: int)
    requires x % TWO_64 == y % TWO_64 && u % TWO_64 == v % TWO_64
    ensures (x + u) % TWO_64 == (y + v) % TWO_64
  {
  }

  /**
   * Along any accepted run, the 64-bit delivered total grows by the bytes of
   * the accepted deliveries, modulo 2^64.
   */
  lemma {:induction false} RunDeliveredModular(st: RunState, evs: seq<Event>, hooks: Hooks)
    ensures Run(st, evs, hooks).Success? ==>
              (Run(st, evs, hooks).value.est.rate.delivered - st.est.rate.delivered) % TWO_64
                == (Run(st, evs, hooks).value.deliveredBytes - st.deliveredBytes) % TWO_64
    decreases |evs|
  {
    if |evs| > 0 && Step(st, evs[0], hooks).Success? {
      var st1 := Step(st, evs[0], hooks).value;
      RunDeliveredModular(st1, evs[1..], hooks);
      var fin := Run(st1, evs[1..], hooks);
      if fin.Success? {
        var d0, d1, d2 := st.est.rate.delivered, st1.est.rate.delivered, fin.value.est.rate.delivered;
        var b0, b1, b2 := st.deliveredBytes, st1.deliveredBytes, fin.value.deliveredBytes;
        assert (d1 - d0) % TWO_64 == (b1 - b0) % TWO_64;
        AddResidues(d2 - d1, b2 - b1, d1 - d0, b1 - b0);
      }
    }
  }

  /**
   * On a run short enough that the 64-bit total cannot wrap (each delivery
   * adds less than 2^32), the delivered total grows by exactly the bytes of
   * the accepted deliveries; the delivered time never decreases.
   */
  lemma {:induction false} RunMonotone(st: RunState, evs: seq<Event>, hooks: Hooks, t: Time)
    requires st.est.rate.deliveredTime <= t && ClockFrom(t, evs)
    requires st.est.rate.delivered + |evs| * TWO_32 < TWO_64
    ensures Run(st, evs, hooks).Success? ==>
              Run(st, evs, hooks).value.est.rate.delivered - st.est.rate.delivered
                == Run(st, evs, hooks).value.deliveredBytes - st.deliveredBytes
    ensures Run(st, evs, hooks).Success? ==>
              Run(st, evs, hooks).value.est.rate.deliveredTime >= st.est.rate.deliveredTime
    decreases |evs|
  {
    if |evs| > 0 && Step(st, evs[0], hooks).Success? {
      var st1 := Step(st, evs[0], hooks).value;
      var t1 := if evs[0].AppLimited? then t else evs[0].now;
      assert st1.est.rate.delivered <= st.est.rate.delivered + TWO_32;
      RunMonotone(st1, evs[1..], hooks, t1);
    }
  }

  /** A delivered item's send time is the clock of its send event, whatever the caller passed in. */
  lemma SendStampsClock(hooks: Hooks)
    ensures var r := Run(RunState(Fresh(), map[], 0),
                         [Sent(TcpTxItem(1, 100, 1000, Unsent), true, 5), Delivered(1, 6)], hooks);
            r.Success? && r.value.est.rate.firstSentTime == 5 && r.value.est.sample.sendElapsed == 0
  {
  }
}
