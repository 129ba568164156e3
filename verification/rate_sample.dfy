/**
 * `TcpRateOps::TcpRateSample`: the rate sample handed to congestion control at
 * the end of ACK processing, and its validity test.
 */
module RateSample {
  import opened Units

  /**
   * One rate sample. `deliveryRate` is the `DataRate` in bit/s (a `uint64_t`
   * inside ns-3's `DataRate`); the other widths are those of the C++ fields.
   */
  datatype TcpRateSample = TcpRateSample(
    deliveryRate: u64,
    isAppLimited: u32,
    interval: Time,
    delivered: u32,
    priorDelivered: u32,
    priorTime: Time,
    sendElapsed: Time,
    ackElapsed: Time,
    packetLoss: u32,
    priorInFlight: u32)
  {
    /** `IsValid ()`: a non-zero prior time OR a non-zero interval. Nothing else is consulted. */
    predicate IsValid() {
      priorTime != 0 || interval != 0
    }
  }

  /** A default-constructed sample: every member initialiser is zero, so it is not valid. */
  function DefaultSample(): (s: TcpRateSample)
    ensures s.deliveryRate == 0 && s.isAppLimited == 0 && s.interval == 0
    ensures s.delivered == 0 && s.priorDelivered == 0 && s.priorTime == 0
    ensures s.sendElapsed == 0 && s.ackElapsed == 0
    ensures s.packetLoss == 0 && s.priorInFlight == 0
    ensures !s.IsValid()
  {
    TcpRateSample(0, 0, 0, 0, 0, 0, 0, 0, 0, 0)
  }

  /**
   * The validity the doc comment of the structure describes: a sample is
   * invalid if "delivered" or the interval is negative.
   */
  predicate DocCommentValid(s: TcpRateSample) {
    s.delivered >= 0 && s.interval >= 0
  }

  /** The stricter rule a consumer dividing by the interval needs: a positive interval. */
  predicate PositiveInterval(s: TcpRateSample) {
    s.interval > 0
  }

  /**
   * `IsValid` only reads the prior time and the interval: two samples that agree
   * on those two fields are equally valid, whatever their counts and rates.
   */
  lemma IsValidReadsOnlyTimes(s: TcpRateSample, t: TcpRateSample)
    requires s.priorTime == t.priorTime && s.interval == t.interval
    ensures s.IsValid() <==> t.IsValid()
    ensures !s.IsValid() <==> s.priorTime == 0 && s.interval == 0
  {
  }

  /**
   * `IsValid` is not the doc comment's rule, in either direction: a sample with
   * a negative interval (or a zero interval but a non-zero prior time) passes
   * `IsValid`, and the all-zero sample, which has nothing negative, fails it.
   * A positive interval is enough for `IsValid`, but not necessary.
   */
  lemma IsValidDivergesFromDocComment()
    ensures exists s: TcpRateSample :: s.IsValid() && !DocCommentValid(s)
    ensures exists s: TcpRateSample :: DocCommentValid(s) && !s.IsValid()
    ensures exists s: TcpRateSample :: s.IsValid() && !PositiveInterval(s) && s.interval == 0
    ensures forall s: TcpRateSample :: PositiveInterval(s) ==> s.IsValid()
  {
    var negative := DefaultSample().(interval := -1);
    assert negative.IsValid() && !DocCommentValid(negative);
    var zero := DefaultSample();
    assert DocCommentValid(zero) && !zero.IsValid();
    var stale := DefaultSample().(priorTime := 1);
    assert stale.IsValid() && !PositiveInterval(stale) && stale.interval == 0;
  }
}
