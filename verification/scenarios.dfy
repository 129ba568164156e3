/**
 * Properties that relate several estimator calls: a send and the delivery of
 * the same item, the app-limited index and the next send, a reneged SACK and
 * the next pass, and small end-to-end runs.
 */
module Scenarios {
  import opened Wrappers
  import opened Units
  import opened TxItem
  import opened RateSample
  import opened TieBreak
  import opened TcpRateLinux
  import opened Pass

  /**
   * The snapshot `SkbSent` writes is what `SkbDelivered` reads back: delivering
   * the item to a sample without a basis puts its send-time counters into the
   * sample's prior fields; delivering it again is refused.
   */
  lemma SentThenDelivered(est: Estimator, item: TcpTxItem, start: bool, sentAt: Time, ackAt: Time)
    requires est.sample.priorDelivered == 0
    ensures var (e1, sent) := SkbSent(est, item, start, sentAt);
      && SkbDelivered(e1, sent, ackAt).Success?
      && var (e2, acked) := SkbDelivered(e1, sent, ackAt).value;
      && e2.sample.priorDelivered == Trunc32(est.rate.delivered)
      && e2.sample.priorTime == e1.rate.deliveredTime
      && (e2.sample.isAppLimited != 0 <==> est.rate.appLimited != 0)
      && e2.sample.sendElapsed == item.lastSent - e1.rate.firstSentTime
      && e2.rate.firstSentTime == item.lastSent
      && SkbDelivered(e2, acked, ackAt) == Failure(AlreadyDelivered)
  {
  }

  /**
   * After `CalculateAppLimited`, the next sent item is tagged app-limited
   * exactly when the detector left a non-zero index.
   */
  lemma AppLimitedTagsNextSend(est: Estimator, inputs: AppLimitedInputs, detector: (AppLimitedInputs, TcpRate) -> u32,
                               item: TcpTxItem, start: bool, now: Time)
    ensures var sent := SkbSent(CalculateAppLimited(est, inputs, detector), item, start, now).1;
      sent.rate.info.isAppLimited <==> detector(inputs, est.rate) != 0
  {
  }

  /**
   * A reneged SACK gives an invalid sample and clears the basis, so after the
   * next pass the sample's prior fields come from one of that pass's own
   * items (index `k`), or stay cleared when it delivers nothing.
   */
  lemma RenegIsolatesNextPass(est: Estimator, delivered: u32, lost: u32, minRtt: Time, renegAt: Time,
                              measure: (TcpRateSample, TcpRate, Time, Time) -> Timing, rateOf: (u32, Time) -> u64,
                              items: seq<TcpTxItem>, now: Time)
    returns (k: int)
    requires AllPending(items) && Distinct(items)
    ensures var (e1, s) := SampleGen(est, delivered, lost, true, minRtt, renegAt, measure, rateOf);
      && !s.IsValid() && s.deliveryRate == 0
      && e1.sample.priorDelivered == 0 && e1.sample.priorTime == 0
      && DeliverAll(e1, items, now).Success?
      && var e2 := DeliverAll(e1, items, now).value;
      && (|items| == 0 ==> e2.sample.priorDelivered == 0 && e2.sample.priorTime == 0)
      && (|items| > 0 ==> 0 <= k < |items|
                          && e2.sample.priorDelivered == Trunc32(items[k].rate.info.delivered)
                          && e2.sample.priorTime == items[k].rate.info.deliveredTime)
  {
    var e1 := SampleGen(est, delivered, lost, true, minRtt, renegAt, measure, rateOf).0;
    DeliverAllEffect(e1, items, now);
    k := 0;
    if |items| > 0 {
      var b := Select(0, Bases(items)).value;
      k :| 0 <= k < |items| && Bases(items)[k] == b;
    }
  }

  /** No item sent or delivered: the first sample is invalid and carries a zero rate. */
  lemma NothingSentGivesInvalidSample(delivered: u32, lost: u32, reneg: bool, minRtt: Time, now: Time,
                                      measure: (TcpRateSample, TcpRate, Time, Time) -> Timing, rateOf: (u32, Time) -> u64)
    ensures var s := SampleGen(Fresh(), delivered, lost, reneg, minRtt, now, measure, rateOf).1;
      !s.IsValid() && s.deliveryRate == 0 && s.interval == 0
  {
  }

  /**
   * One 100-byte item sent at time 10 on an idle connection and acked at time
   * 60 gives a valid sample of 100 bytes whose prior count is zero and whose
   * prior time is the send time.
   */
  lemma SingleItemEndToEnd(measure: (TcpRateSample, TcpRate, Time, Time) -> Timing, rateOf: (u32, Time) -> u64)
    requires measure(DefaultSample().(priorTime := 10), TcpRate(100, 60, 10, 0, 0, 0), 60, 20).interval > 0
    ensures var (e1, a) := SkbSent(Fresh(), TcpTxItem(1, 100, 10, Unsent), true, 10);
      && SkbDelivered(e1, a, 60).Success?
      && var e2 := SkbDelivered(e1, a, 60).value.0;
      && e2.rate == TcpRate(100, 60, 10, 0, 0, 0)
      && var s := SampleGen(e2, 100, 0, false, 20, 60, measure, rateOf).1;
      && s.IsValid() && s.delivered == 100 && s.priorDelivered == 0 && s.priorTime == 10
      && s.sendElapsed == 0 && s.packetLoss == 0 && s.deliveryRate == rateOf(100, s.interval)
  {
  }

  /**
   * The same item sent at time 0 gives no sample at all: its prior time is 0,
   * which the sample cannot tell from "no timing information".
   */
  lemma SentAtTimeZeroGivesNoSample(measure: (TcpRateSample, TcpRate, Time, Time) -> Timing, rateOf: (u32, Time) -> u64)
    ensures var (e1, a) := SkbSent(Fresh(), TcpTxItem(1, 100, 0, Unsent), true, 0);
      && SkbDelivered(e1, a, 50).Success?
      && var s := SampleGen(SkbDelivered(e1, a, 50).value.0, 100, 0, false, 20, 50, measure, rateOf).1;
      && !s.IsValid() && s.deliveryRate == 0
  {
  }

  /**
   * In a valid sample the prior count plus the data delivered over the
   * interval is the delivered total at sample time, modulo the 32-bit width;
   * exactly so when nothing wrapped.
   */
  lemma SampleDeliveredSinceBasis(est: Estimator, delivered: u32, lost: u32, minRtt: Time, now: Time,
                                  measure: (TcpRateSample, TcpRate, Time, Time) -> Timing, rateOf: (u32, Time) -> u64)
    ensures var s := SampleGen(est, delivered, lost, false, minRtt, now, measure, rateOf).1;
      s.IsValid() ==> (s.priorDelivered + s.delivered) % TWO_32 == est.rate.delivered % TWO_32
    ensures var s := SampleGen(est, delivered, lost, false, minRtt, now, measure, rateOf).1;
      s.IsValid() && est.sample.priorDelivered <= est.rate.delivered < TWO_32 ==>
        s.priorDelivered + s.delivered == est.rate.delivered
  {
  }

  /**
   * The tie-break does not favour the most recently sent item. Item 1 opens a
   * burst at time 10 and item 2 follows at 11 with no delivery in between, so
   * both carry the count 1000. An ACK delivering them in sequence order keeps
   * item 1, the earlier sent one; only the reverse order keeps item 2.
   */
  lemma SameBurstKeepsEarlierSent()
    ensures var est := Fresh().(rate := FreshRate().(delivered := 1000));
      var (e1, i1) := SkbSent(est, TcpTxItem(1, 100, 10, Unsent), true, 10);
      var (e2, i2) := SkbSent(e1, TcpTxItem(2, 100, 11, Unsent), false, 11);
      && i1.rate.info.delivered == i2.rate.info.delivered == 1000
      && i1.lastSent < i2.lastSent
      && DeliverAll(e2, [i1, i2], 20).Success?
      && DeliverAll(e2, [i1, i2], 20).value.rate.firstSentTime == i1.lastSent
      && DeliverAll(e2, [i1, i2], 20).value.sample.sendElapsed == 0
      && DeliverAll(e2, [i2, i1], 20).Success?
      && DeliverAll(e2, [i2, i1], 20).value.rate.firstSentTime == i2.lastSent
      && DeliverAll(e2, [i2, i1], 20).value.sample.sendElapsed == 1
  {
    var est := Fresh().(rate := FreshRate().(delivered := 1000));
    var (e1, i1) := SkbSent(est, TcpTxItem(1, 100, 10, Unsent), true, 10);
    var (e2, i2) := SkbSent(e1, TcpTxItem(2, 100, 11, Unsent), false, 11);
    assert i1 == TcpTxItem(1, 100, 10, Pending(RateInfo(1000, 10, 10, false)));
    assert i2 == TcpTxItem(2, 100, 11, Pending(RateInfo(1000, 10, 10, false)));
    assert [i1, i2][1..] == [i2] && [i2, i1][1..] == [i1];
    assert [i2][1..] == [] && [i1][1..] == [];
    var a1 := SkbDelivered(e2, i1, 20).value.0;
    var a12 := SkbDelivered(a1, i2, 20).value.0;
    assert a1.sample.priorDelivered == 1000 && a12.rate.firstSentTime == 10 && a12.sample.sendElapsed == 0;
    assert SkbDelivered(a1, i2, 20).Success? && [i2][0] == i2;
    assert DeliverFrom(a12, [], 20, {1} + {2}) == Success(a12);
    assert DeliverFrom(a1, [i2], 20, {1}) == DeliverFrom(a12, [], 20, {1} + {2});
    assert [i1, i2][0] == i1;
    assert DeliverAll(e2, [i1, i2], 20) == DeliverFrom(a1, [i2], 20, {} + {1});
    assert DeliverAll(e2, [i1, i2], 20) == Success(a12);
    var b2 := SkbDelivered(e2, i2, 20).value.0;
    var b21 := SkbDelivered(b2, i1, 20).value.0;
    assert b2.sample.priorDelivered == 1000 && b21.rate.firstSentTime == 11 && b21.sample.sendElapsed == 1;
    assert SkbDelivered(b2, i1, 20).Success? && [i1][0] == i1;
    assert DeliverFrom(b21, [], 20, {2} + {1}) == Success(b21);
    assert DeliverFrom(b2, [i1], 20, {2}) == DeliverFrom(b21, [], 20, {2} + {1});
    assert [i2, i1][0] == i2;
    assert DeliverAll(e2, [i2, i1], 20) == DeliverFrom(b2, [i1], 20, {} + {2});
    assert DeliverAll(e2, [i2, i1], 20) == Success(b21);
  }
}
