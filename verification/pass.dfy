/**
 * One ACK-processing pass: the `SkbDelivered` calls an ACK triggers, one per
 * newly (s)acked item, and the properties of their combined effect, above all
 * whether it depends on the order of the calls.
 */
module Pass {
  import opened Wrappers
  import opened Units
  import opened TxItem
  import opened RateSample
  import opened TieBreak
  import opened TcpRateLinux

  /** Every item carries a snapshot that has not been consumed yet. */
  predicate AllPending(items: seq<TcpTxItem>) {
    forall i :: 0 <= i < |items| ==> items[i].rate.Pending?
  }

  /** No item appears twice: the start sequence numbers are pairwise different. */
  predicate Distinct(items: seq<TcpTxItem>) {
    forall i, j :: 0 <= i < j < |items| ==> items[i].startSeq != items[j].startSeq
  }

  /** None of the items is among the ones already delivered in this pass. */
  predicate NoneIn(items: seq<TcpTxItem>, done: set<u32>) {
    forall i :: 0 <= i < |items| ==> items[i].startSeq !in done
  }

  /** Every snapshot count fits the sample's 32-bit prior-delivered field. */
  predicate SmallCounts(items: seq<TcpTxItem>) {
    forall i :: 0 <= i < |items| ==> items[i].rate.Pending? ==> items[i].rate.info.delivered < TWO_32
  }

  /** The candidate bases the items offer, in delivery order. */
  function Bases(items: seq<TcpTxItem>): (r: seq<Basis>)
    requires AllPending(items)
    ensures |r| == |items|
    ensures forall i :: 0 <= i < |items| ==> r[i] == BasisOf(items[i])
  {
    if |items| == 0 then [] else [BasisOf(items[0])] + Bases(items[1..])
  }

  /** The total size of the items. */
  function SumSizes(items: seq<TcpTxItem>): nat {
    if |items| == 0 then 0 else items[0].seqSize + SumSizes(items[1..])
  }

  /**
   * `SkbDelivered` applied to each item in turn, remembering the identities
   * `done` already delivered in this pass and stopping at the first refusal.
   */
  function DeliverFrom(est: Estimator, items: seq<TcpTxItem>, now: Time, done: set<u32>): (r: Result<Estimator, DeliveryError>)
    ensures r.Success? <==> AllPending(items) && Distinct(items) && NoneIn(items, done)
    decreases |items|
  {
    if |items| == 0 then Success(est)
    else if items[0].startSeq in done then Failure(AlreadyDelivered)
    else
      match SkbDelivered(est, items[0], now)
      case Failure(e) => Failure(e)
      case Success(p) => DeliverFrom(p.0, items[1..], now, done + {items[0].startSeq})
  }

  /** The deliveries of one pass: refused when an item was never sent, was consumed, or is listed twice. */
  function DeliverAll(est: Estimator, items: seq<TcpTxItem>, now: Time): (r: Result<Estimator, DeliveryError>)
    ensures r.Success? <==> AllPending(items) && Distinct(items)
  {
    DeliverFrom(est, items, now, {})
  }

  lemma ModAddAssoc(a: nat, b: nat, c: nat)
    ensures ((a + b) % TWO_64 + c) % TWO_64 == (a + b + c) % TWO_64
  {
  }

  /** The accepted deliveries' combined effect; see `DeliverAllEffect`. */
  lemma {:induction false} DeliverFromEffect(est: Estimator, items: seq<TcpTxItem>, now: Time, done: set<u32>)
    requires AllPending(items) && Distinct(items) && NoneIn(items, done)
    ensures DeliverFrom(est, items, now, done).Success?
    ensures var e := DeliverFrom(est, items, now, done).value;
      var sel := Select(est.sample.priorDelivered, Bases(items));
      && e.rate.delivered == (est.rate.delivered + SumSizes(items)) % TWO_64
      && e.rate.deliveredTime == (if |items| == 0 then est.rate.deliveredTime else now)
      && e.sample == (if sel.Some? then Adopt(est.sample, sel.value) else est.sample)
      && e.rate.firstSentTime == (if sel.Some? then sel.value.sentTime else est.rate.firstSentTime)
      && e.rate.(delivered := est.rate.delivered, deliveredTime := est.rate.deliveredTime,
                 firstSentTime := est.rate.firstSentTime) == est.rate
    decreases |items|
  {
    if |items| > 0 {
      var x, rest := items[0], items[1..];
      var e1 := SkbDelivered(est, x, now).value.0;
      var done1 := done + {x.startSeq};
      assert AllPending(rest) && Distinct(rest);
      assert NoneIn(rest, done1);
      DeliverFromEffect(e1, rest, now, done1);
      assert DeliverFrom(est, items, now, done) == DeliverFrom(e1, rest, now, done1);
      ModAddAssoc(est.rate.delivered, x.seqSize, SumSizes(rest));
      assert Bases(items)[1..] == Bases(rest);
      if Favors(est.sample.priorDelivered, BasisOf(x)) {
        assert e1.sample == Adopt(est.sample, BasisOf(x));
      } else {
        assert e1.sample == est.sample;
      }
    }
  }

  /**
   * The combined effect of a pass: the sizes are added (modulo 2^64) to the
   * delivered total, the delivered time becomes `now`, and the sample's prior
   * fields and the first-sent time are those of the last item the tie-break
   * let take over, if any.
   */
  lemma DeliverAllEffect(est: Estimator, items: seq<TcpTxItem>, now: Time)
    requires AllPending(items) && Distinct(items)
    ensures DeliverAll(est, items, now).Success?
    ensures var e := DeliverAll(est, items, now).value;
      var sel := Select(est.sample.priorDelivered, Bases(items));
      && e.rate.delivered == (est.rate.delivered + SumSizes(items)) % TWO_64
      && e.rate.deliveredTime == (if |items| == 0 then est.rate.deliveredTime else now)
      && e.sample == (if sel.Some? then Adopt(est.sample, sel.value) else est.sample)
      && e.rate.firstSentTime == (if sel.Some? then sel.value.sentTime else est.rate.firstSentTime)
      && e.rate.(delivered := est.rate.delivered, deliveredTime := est.rate.deliveredTime,
                 firstSentTime := est.rate.firstSentTime) == est.rate
  {
    DeliverFromEffect(est, items, now, {});
  }

  lemma {:induction false} SumSizesRemove(ys: seq<TcpTxItem>, i: nat)
    requires i < |ys|
    ensures SumSizes(ys) == ys[i].seqSize + SumSizes(ys[..i] + ys[i + 1..])
    decreases i
  {
    if i == 0 {
      assert ys[..0] + ys[1..] == ys[1..];
    } else {
      SumSizesRemove(ys[1..], i - 1);
      assert ys[..i] + ys[i + 1..] == [ys[0]] + (ys[1..][..i - 1] + ys[1..][i..]);
      assert (ys[..i] + ys[i + 1..])[1..] == ys[1..][..i - 1] + ys[1..][i..];
    }
  }

  /** The total size of the items of a pass does not depend on their order. */
  lemma {:induction false} SumSizesPermutation(xs: seq<TcpTxItem>, ys: seq<TcpTxItem>)
    requires multiset(xs) == multiset(ys)
    ensures SumSizes(xs) == SumSizes(ys)
    decreases |xs|
  {
    if |xs| == 0 {
      assert |ys| == |multiset(ys)| == 0;
    } else {
      var x := xs[0];
      assert x in multiset(ys);
      var i :| 0 <= i < |ys| && ys[i] == x;
      var rest := ys[..i] + ys[i + 1..];
      assert ys == ys[..i] + [x] + ys[i + 1..];
      assert multiset(rest) == multiset(ys) - multiset{x};
      assert xs == [x] + xs[1..];
      assert multiset(xs[1..]) == multiset(xs) - multiset{x};
      SumSizesPermutation(xs[1..], rest);
      SumSizesRemove(ys, i);
    }
  }

  /** Reordering the items keeps them all outstanding, offers the same candidates and keeps their counts small. */
  lemma SameCandidates(xs: seq<TcpTxItem>, ys: seq<TcpTxItem>)
    requires AllPending(xs) && multiset(xs) == multiset(ys)
    ensures AllPending(ys) && |xs| == |ys|
    ensures forall b :: b in Bases(xs) <==> b in Bases(ys)
    ensures SmallCounts(xs) ==> Small(Bases(xs))
  {
    assert |xs| == |multiset(xs)| == |multiset(ys)| == |ys|;
    forall j | 0 <= j < |ys|
      ensures ys[j].rate.Pending?
    {
      assert ys[j] in multiset(xs);
    }
    forall b | b in Bases(xs)
      ensures b in Bases(ys)
    {
      var i :| 0 <= i < |xs| && Bases(xs)[i] == b;
      assert xs[i] in multiset(ys);
      var j :| 0 <= j < |ys| && ys[j] == xs[i];
      assert Bases(ys)[j] == b;
    }
    forall b | b in Bases(ys)
      ensures b in Bases(xs)
    {
      var j :| 0 <= j < |ys| && Bases(ys)[j] == b;
      assert ys[j] in multiset(xs);
      var i :| 0 <= i < |xs| && xs[i] == ys[j];
      assert Bases(xs)[i] == b;
    }
  }

  /** Inserting an item whose identity is new keeps the identities distinct. */
  lemma DistinctInsert(rest: seq<TcpTxItem>, k: nat, x: TcpTxItem)
    requires k <= |rest| && Distinct(rest)
    requires forall j :: 0 <= j < |rest| ==> rest[j].startSeq != x.startSeq
    ensures Distinct(rest[..k] + [x] + rest[k..])
  {
    var ys := rest[..k] + [x] + rest[k..];
    forall i, j | 0 <= i < j < |ys|
      ensures ys[i].startSeq != ys[j].startSeq
    {
      if i == k {
        assert ys[j] == rest[j - 1];
      } else if j == k {
        assert ys[i] == rest[i];
      } else {
        assert ys[i] == rest[if i < k then i else i - 1];
        assert ys[j] == rest[if j < k then j else j - 1];
      }
    }
  }

  /** Reordering the items cannot make an identity appear twice. */
  lemma {:induction false} DistinctPermutation(xs: seq<TcpTxItem>, ys: seq<TcpTxItem>)
    requires Distinct(xs) && multiset(xs) == multiset(ys)
    ensures Distinct(ys)
    decreases |xs|
  {
    if |xs| > 0 {
      assert xs[0] in multiset(ys);
      var k :| 0 <= k < |ys| && ys[k] == xs[0];
      var rest := ys[..k] + ys[k + 1..];
      assert ys == ys[..k] + [xs[0]] + ys[k + 1..];
      assert multiset(rest) == multiset(ys) - multiset{xs[0]};
      assert xs == [xs[0]] + xs[1..];
      assert multiset(xs[1..]) == multiset(xs) - multiset{xs[0]};
      DistinctPermutation(xs[1..], rest);
      forall j | 0 <= j < |rest|
        ensures rest[j].startSeq != xs[0].startSeq
      {
        assert rest[j] in multiset(xs[1..]);
        var a :| 0 <= a < |xs[1..]| && xs[1..][a] == rest[j];
        assert xs[a + 1] == rest[j];
      }
      DistinctInsert(rest, k, xs[0]);
      assert rest[..k] + [xs[0]] + rest[k..] == ys;
    }
  }

  /** The delivered total and time after a pass depend only on the items' sizes and on `now`. */
  lemma PassTotals(est: Estimator, items: seq<TcpTxItem>, now: Time)
    requires AllPending(items) && Distinct(items)
    ensures DeliverAll(est, items, now).Success?
    ensures DeliverAll(est, items, now).value.rate.delivered == (est.rate.delivered + SumSizes(items)) % TWO_64
    ensures DeliverAll(est, items, now).value.rate.deliveredTime == (if |items| == 0 then est.rate.deliveredTime else now)
  {
    DeliverAllEffect(est, items, now);
  }

  /** The prior-delivered count after a pass is the one the tie-break leaves. */
  lemma PassHeldCount(est: Estimator, items: seq<TcpTxItem>, now: Time)
    requires AllPending(items) && Distinct(items)
    ensures DeliverAll(est, items, now).Success?
    ensures DeliverAll(est, items, now).value.sample.priorDelivered == HeldAfter(est.sample.priorDelivered, Bases(items))
  {
    DeliverAllEffect(est, items, now);
  }

  /**
   * Whatever order one ACK's deliveries arrive in, the delivered total and the
   * delivered time are the same; while the snapshot counts fit in 32 bits, so
   * is the prior-delivered count the sample ends up holding.
   */
  lemma {:induction false} DeliverAllCountsOrderIndependent(est: Estimator, xs: seq<TcpTxItem>, ys: seq<TcpTxItem>, now: Time)
    requires AllPending(xs) && Distinct(xs) && multiset(xs) == multiset(ys)
    ensures DeliverAll(est, xs, now).Success? && DeliverAll(est, ys, now).Success?
    ensures var ex, ey := DeliverAll(est, xs, now).value, DeliverAll(est, ys, now).value;
      && ex.rate.delivered == ey.rate.delivered
      && ex.rate.deliveredTime == ey.rate.deliveredTime
      && (SmallCounts(xs) ==> ex.sample.priorDelivered == ey.sample.priorDelivered)
  {
    DistinctPermutation(xs, ys);
    SameCandidates(xs, ys);
    PassTotals(est, xs, now);
    PassTotals(est, ys, now);
    SumSizesPermutation(xs, ys);
    if SmallCounts(xs) {
      PassHeldCount(est, xs, now);
      PassHeldCount(est, ys, now);
      SelectCountOrderIndependent(est.sample.priorDelivered, Bases(xs), Bases(ys));
    }
  }

  /**
   * While the snapshot counts fit in 32 bits and no two items share a count,
   * the whole estimator after the pass is the same whatever order the
   * deliveries arrive in.
   */
  lemma {:induction false} DeliverAllOrderIndependent(est: Estimator, xs: seq<TcpTxItem>, ys: seq<TcpTxItem>, now: Time)
    requires AllPending(xs) && Distinct(xs) && multiset(xs) == multiset(ys)
    requires SmallCounts(xs) && KeysDetermine(Bases(xs))
    ensures DeliverAll(est, xs, now).Success?
    ensures DeliverAll(est, xs, now) == DeliverAll(est, ys, now)
  {
    DistinctPermutation(xs, ys);
    SameCandidates(xs, ys);
    DeliverAllEffect(est, xs, now);
    DeliverAllEffect(est, ys, now);
    SumSizesPermutation(xs, ys);
    SelectOrderIndependent(est.sample.priorDelivered, Bases(xs), Bases(ys));
    var ex, ey := DeliverAll(est, xs, now).value, DeliverAll(est, ys, now).value;
    assert ex.sample == ey.sample;
    assert ex.rate == ey.rate;
    assert ex == ey;
  }

  /**
   * Past 2^32 the order matters: two items with counts 2^32+10 and 2^32+5,
   * delivered to a sample holding no basis, leave 5 when the larger comes
   * first and 10 when it comes second, and the samples `SampleGen` then
   * produces carry those two different prior-delivered counts.
   */
  lemma WrapMakesPassOrderDependent(est: Estimator, a: TcpTxItem, b: TcpTxItem, now: Time, delivered: u32, lost: u32,
                                    minRtt: Time, sampleAt: Time,
                                    measure: (TcpRateSample, TcpRate, Time, Time) -> Timing, rateOf: (u32, Time) -> u64)
    requires est.sample.priorDelivered == 0 && a.startSeq != b.startSeq
    requires a.rate.Pending? && a.rate.info.delivered == TWO_32 + 10
    requires b.rate.Pending? && b.rate.info.delivered == TWO_32 + 5
    ensures DeliverAll(est, [a, b], now).Success? && DeliverAll(est, [b, a], now).Success?
    ensures DeliverAll(est, [a, b], now).value.sample.priorDelivered == 5
    ensures DeliverAll(est, [b, a], now).value.sample.priorDelivered == 10
    ensures var s1 := SampleGen(DeliverAll(est, [a, b], now).value, delivered, lost, false, minRtt, sampleAt, measure, rateOf).1;
      var s2 := SampleGen(DeliverAll(est, [b, a], now).value, delivered, lost, false, minRtt, sampleAt, measure, rateOf).1;
      s1.IsValid() && s2.IsValid() ==> s1.priorDelivered == 5 && s2.priorDelivered == 10
  {
    DeliverAllEffect(est, [a, b], now);
    DeliverAllEffect(est, [b, a], now);
    assert Bases([a, b]) == [BasisOf(a), BasisOf(b)];
    assert Bases([b, a]) == [BasisOf(b), BasisOf(a)];
    assert [BasisOf(a), BasisOf(b)][1..] == [BasisOf(b)];
    assert [BasisOf(b), BasisOf(a)][1..] == [BasisOf(a)];
  }

  /**
   * A pass that starts without a basis, with counts that fit in 32 bits, and
   * ends in a valid sample reports the prior information of the delivered
   * item with the highest prior-delivered count: its index is returned.
   */
  lemma PassSampleFromMostRecent(est: Estimator, items: seq<TcpTxItem>, now: Time, delivered: u32, lost: u32,
                                 minRtt: Time, sampleAt: Time,
                                 measure: (TcpRateSample, TcpRate, Time, Time) -> Timing, rateOf: (u32, Time) -> u64)
    returns (k: nat)
    requires est.sample.priorDelivered == 0 && est.sample.priorTime == 0
    requires AllPending(items) && Distinct(items) && SmallCounts(items)
    requires SampleGen(DeliverAll(est, items, now).value, delivered, lost, false, minRtt, sampleAt, measure, rateOf).1.IsValid()
    ensures k < |items|
    ensures var s := SampleGen(DeliverAll(est, items, now).value, delivered, lost, false, minRtt, sampleAt, measure, rateOf).1;
      && s.priorDelivered == items[k].rate.info.delivered
      && s.priorTime == items[k].rate.info.deliveredTime
      && forall j :: 0 <= j < |items| ==> items[j].rate.info.delivered <= items[k].rate.info.delivered
  {
    DeliverAllEffect(est, items, now);
    SameCandidates(items, items);
    var b := Select(0, Bases(items)).value;
    k :| 0 <= k < |items| && Bases(items)[k] == b;
  }
}
