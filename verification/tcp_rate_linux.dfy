/**
 * `TcpRateLinux`: the per-connection delivery-rate estimator modelled after the
 * Linux kernel's rate sampling. The object is an immutable `Estimator` value,
 * made of `m_rate` and `m_rateSample`, and each of the four operations is a
 * step function returning the next value. The simulator clock is the
 * parameter `now`; the formulas the interface does not state (the app-limited
 * condition, the ack-elapsed time and interval, and the rate conversion) are
 * function parameters the caller supplies.
 */
module TcpRateLinux {
  import opened Wrappers
  import opened Units
  import opened TxItem
  import opened RateSample
  import opened TieBreak

  /** `TcpRateLinux::TcpRate`, the running counters of one connection. */
  datatype TcpRate = TcpRate(
    delivered: u64,
    deliveredTime: Time,
    firstSentTime: Time,
    appLimited: u32,
    txItemDelivered: u32,
    lastAckedSackedBytes: u32)

  /**
   * The estimator: the counters (`m_rate`) and the rate sample (`m_rateSample`).
   * During an ACK-processing pass the sample's prior fields hold the basis
   * selected so far; a prior-delivered count of 0 means none is held.
   */
  datatype Estimator = Estimator(rate: TcpRate, sample: TcpRateSample)

  /** The counters of a newly created estimator: every member initialiser is zero. */
  function FreshRate(): (r: TcpRate)
    ensures r.delivered == 0 && r.deliveredTime == 0 && r.firstSentTime == 0
    ensures r.appLimited == 0 && r.txItemDelivered == 0 && r.lastAckedSackedBytes == 0
  {
    TcpRate(0, 0, 0, 0, 0, 0)
  }

  /** A newly created estimator: zero counters and a default sample, which holds no basis and is not valid. */
  function Fresh(): (e: Estimator)
    ensures e.rate == FreshRate()
    ensures e.sample == DefaultSample() && e.sample.priorDelivered == 0 && !e.sample.IsValid()
  {
    Estimator(FreshRate(), DefaultSample())
  }

  /** The delivery information the counters hold right now, as stored into a sent item. */
  function Snapshot(rate: TcpRate): RateInfo {
    RateInfo(rate.delivered, rate.deliveredTime, rate.firstSentTime, rate.appLimited != 0)
  }

  /**
   * `SkbSent`: the counters are copied into the item, and nothing else in the
   * item changes. `isStartOfTransmission` is true when nothing was in flight.
   * What the flag changes is a choice of this model, not something the
   * interface states: on a start of transmission the first-sent and delivered
   * times first move to `now`, so an idle period does not count in the next
   * interval.
   */
  function SkbSent(est: Estimator, item: TcpTxItem, isStartOfTransmission: bool, now: Time): (r: (Estimator, TcpTxItem))
    ensures r.1.(rate := item.rate) == item
    ensures r.1.rate.Pending?
    ensures r.1.rate.info.delivered == est.rate.delivered
    ensures r.1.rate.info.isAppLimited <==> est.rate.appLimited != 0
    ensures isStartOfTransmission ==> r.1.rate.info.deliveredTime == now && r.1.rate.info.firstSentTime == now
    ensures !isStartOfTransmission ==> r.1.rate.info.deliveredTime == est.rate.deliveredTime
    ensures !isStartOfTransmission ==> r.1.rate.info.firstSentTime == est.rate.firstSentTime
    ensures r.1.rate.info.deliveredTime == r.0.rate.deliveredTime
    ensures r.1.rate.info.firstSentTime == r.0.rate.firstSentTime
    ensures r.0.rate.(deliveredTime := est.rate.deliveredTime, firstSentTime := est.rate.firstSentTime) == est.rate
    ensures !isStartOfTransmission ==> r.0.rate == est.rate
    ensures r.0.sample == est.sample
  {
    var rate := if isStartOfTransmission then est.rate.(firstSentTime := now, deliveredTime := now) else est.rate;
    (est.(rate := rate), item.(rate := Pending(Snapshot(rate))))
  }

  /** Misuse of `SkbDelivered` by the caller. */
  datatype DeliveryError =
    | NeverSent         // the item carries no snapshot: it was never passed to SkbSent
    | AlreadyDelivered  // the item's delivery was already counted

  /** The candidate basis an outstanding item offers. */
  function BasisOf(item: TcpTxItem): Basis
    requires item.rate.Pending?
  {
    Basis(item.rate.info, item.lastSent)
  }

  /**
   * The sample once `b` is its basis: the prior-delivered count (cut to the
   * field's 32 bits), the prior time, the app-limited flag, and the send time
   * elapsed from the first-sent time recorded in the snapshot to the item's
   * own send.
   */
  function Adopt(s: TcpRateSample, b: Basis): TcpRateSample {
    s.(priorDelivered := Held(b), priorTime := b.info.deliveredTime,
       isAppLimited := if b.info.isAppLimited then 1 else 0,
       sendElapsed := b.sentTime - b.info.firstSentTime)
  }

  /**
   * `SkbDelivered`: count the (s)acked item into the delivered total at time
   * `now`, and fill the sample's prior fields with its snapshot when the
   * sample holds no basis yet or the item's prior-delivered count is strictly
   * higher than the one held. The item's slot is then marked consumed, so a
   * second delivery of it is refused.
   */
  function SkbDelivered(est: Estimator, item: TcpTxItem, now: Time): (r: Result<(Estimator, TcpTxItem), DeliveryError>)
    ensures item.rate.Unsent? <==> r == Failure(NeverSent)
    ensures item.rate.Consumed? <==> r == Failure(AlreadyDelivered)
    ensures r.Success? ==> item.rate.Pending? && r.value.1 == item.(rate := Consumed)
    ensures r.Success? ==> r.value.0.rate.delivered == Add64(est.rate.delivered, item.seqSize)
    ensures r.Success? && est.rate.delivered + item.seqSize < TWO_64 ==>
              r.value.0.rate.delivered == est.rate.delivered + item.seqSize
    ensures r.Success? ==> r.value.0.rate.deliveredTime == now
    ensures r.Success? ==>
              r.value.0.rate.(delivered := est.rate.delivered, deliveredTime := est.rate.deliveredTime,
                              firstSentTime := est.rate.firstSentTime) == est.rate
    // the tie-break: with no basis held (count 0) or a strictly higher count, the item takes over
    ensures r.Success? && (est.sample.priorDelivered == 0 || est.sample.priorDelivered < item.rate.info.delivered) ==>
              && r.value.0.sample.priorDelivered == Trunc32(item.rate.info.delivered)
              && r.value.0.sample.priorTime == item.rate.info.deliveredTime
              && (r.value.0.sample.isAppLimited != 0 <==> item.rate.info.isAppLimited)
              && r.value.0.sample.sendElapsed == item.lastSent - item.rate.info.firstSentTime
              && r.value.0.rate.firstSentTime == item.lastSent
    ensures r.Success? && est.sample.priorDelivered != 0 && item.rate.info.delivered <= est.sample.priorDelivered ==>
              r.value.0.sample == est.sample && r.value.0.rate.firstSentTime == est.rate.firstSentTime
    ensures r.Success? ==>
              r.value.0.sample.(priorDelivered := est.sample.priorDelivered, priorTime := est.sample.priorTime,
                                isAppLimited := est.sample.isAppLimited, sendElapsed := est.sample.sendElapsed) == est.sample
  {
    match item.rate
    case Unsent => Failure(NeverSent)
    case Consumed => Failure(AlreadyDelivered)
    case Pending(info) =>
      var cand := Basis(info, item.lastSent);
      var rate := est.rate.(delivered := Add64(est.rate.delivered, item.seqSize), deliveredTime := now);
      var done := item.(rate := Consumed);
      if Favors(est.sample.priorDelivered, cand) then
        Success((Estimator(rate.(firstSentTime := item.lastSent), Adopt(est.sample, cand)), done))
      else
        Success((est.(rate := rate), done))
  }

  /** The values `CalculateAppLimited` receives from the socket. */
  datatype AppLimitedInputs = AppLimitedInputs(cWnd: u32, inFlight: u32, segmentSize: u32, tailSeq: u32, nextTx: u32)

  /**
   * `CalculateAppLimited`: an update of the app-limited index alone. The
   * condition and the new index are the parameter `detector`, which sees the
   * inputs and all the counters.
   */
  function CalculateAppLimited(est: Estimator, inputs: AppLimitedInputs, detector: (AppLimitedInputs, TcpRate) -> u32): (r: Estimator)
    ensures r.rate.appLimited == detector(inputs, est.rate)
    ensures r.rate.(appLimited := est.rate.appLimited) == est.rate
    ensures r.sample == est.sample
  {
    est.(rate := est.rate.(appLimited := detector(inputs, est.rate)))
  }

  /** The ack-elapsed time and the interval `SampleGen` derives from the held basis. */
  datatype Timing = Timing(ackElapsed: Time, interval: Time)

  /**
   * `SampleGen`: close the ACK-processing pass at time `now`. `delivered` and
   * `lost` are the amounts (s)acked and marked lost by this ACK. A reneged
   * SACK, a sample without timing information (zero prior time) or a
   * non-positive interval gives the all-zero sample, which is not valid and
   * never reaches `rateOf`; otherwise the sample keeps the basis's prior
   * fields and gets the data delivered since the basis. The estimator keeps
   * the produced sample with its basis cleared, so the next pass starts anew.
   */
  function SampleGen(est: Estimator, delivered: u32, lost: u32, isSackReneg: bool, minRtt: Time, now: Time,
                     measure: (TcpRateSample, TcpRate, Time, Time) -> Timing, rateOf: (u32, Time) -> u64): (r: (Estimator, TcpRateSample))
    ensures r.0.sample == r.1.(priorDelivered := 0, priorTime := 0)
    ensures r.0.rate.lastAckedSackedBytes == delivered
    ensures r.0.rate.(lastAckedSackedBytes := est.rate.lastAckedSackedBytes) == est.rate
    ensures r.1.IsValid() <==>
              !isSackReneg && est.sample.priorTime != 0 && measure(est.sample, est.rate, now, minRtt).interval > 0
    ensures r.1.IsValid() ==> r.1.interval > 0
    ensures !r.1.IsValid() ==> r.1 == DefaultSample()
    ensures r.1.IsValid() ==>
              && r.1.priorDelivered == est.sample.priorDelivered
              && r.1.priorTime == est.sample.priorTime
              && r.1.isAppLimited == est.sample.isAppLimited
              && r.1.sendElapsed == est.sample.sendElapsed
              && r.1.ackElapsed == measure(est.sample, est.rate, now, minRtt).ackElapsed
              && r.1.interval == measure(est.sample, est.rate, now, minRtt).interval
              && r.1.delivered == Trunc32(est.rate.delivered - est.sample.priorDelivered)
              && r.1.deliveryRate == rateOf(r.1.delivered, r.1.interval)
              && r.1.packetLoss == lost
  {
    var rate := est.rate.(lastAckedSackedBytes := delivered);
    var s := est.sample;
    var sample :=
      if isSackReneg || s.priorTime == 0 then DefaultSample()
      else
        var t := measure(s, est.rate, now, minRtt);
        if t.interval <= 0 then DefaultSample()
        else
          var d := Trunc32(est.rate.delivered - s.priorDelivered);
          s.(deliveryRate := rateOf(d, t.interval), interval := t.interval, delivered := d,
             ackElapsed := t.ackElapsed, packetLoss := lost, priorInFlight := 0);
    (Estimator(rate, sample.(priorDelivered := 0, priorTime := 0)), sample)
  }
}
