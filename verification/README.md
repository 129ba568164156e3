# TCP delivery-rate estimator (ns-3 `TcpRateOps` / `TcpRateLinux`)

A Dafny model of the per-connection delivery-rate estimator of ns-3's TCP,
declared in `src/internet/model/tcp-rate-ops.h`. The header describes the
estimator as the Linux kernel's rate sampling (`TcpRateLinux`). How it works:
- When an item (`TcpTxItem`) is sent, it receives a snapshot of the delivery
  counters (`SkbSent`).
- When the item is (s)acked, the snapshot comes back (`SkbDelivered`). Its
  prior delivery information is filled into the rate sample. Among the items
  one ACK covers, the one with the highest prior-delivered count is favoured.
- `SampleGen` closes the ACK-processing pass and produces a `TcpRateSample`.
  `IsValid` decides whether that sample is usable.
- `CalculateAppLimited` updates the app-limited index.

The model is functional. The estimator is an immutable `Estimator` value made of
the two members the header gives the object: the counters `m_rate` (`TcpRate`)
and the rate sample `m_rateSample`. Every operation is a pure step function.

The widths of the C++ fields are kept:
- `u32` and `u64` are subset types.
- Wrap-around (`Add64`) and truncation (`Trunc32`) are written out wherever a
  64-bit value meets a 32-bit one.
- The basis of the pass lives where the header puts it: in the sample's prior
  fields. The held count is therefore the 32-bit `m_priorDelivered`, and 0 in
  it means no basis is held yet.

ns-3 `Time` is an integer tick count (`Time = int`, `Seconds (0)` is `0`). The
simulator clock is the parameter `now` of `SkbSent`, `SkbDelivered` and
`SampleGen`.

Only the header is modelled; `tcp-rate-ops.cc` and `tcp-tx-item.h` are not part
of this model. Where the header gives no formula, the model takes one as a
parameter instead of inventing it:
- `detector` is the app-limited condition of `CalculateAppLimited`. It sees the
  socket inputs and all the counters.
- `measure` computes the ack-elapsed time and the interval. It receives the
  sample holding the basis, the counters, `now` and `minRtt`.
- `rateOf` converts the delivered amount and the interval to a `DataRate`.

Modules, leaf first:
- `Units` (units.dfy): widths, wrap-around and truncation.
- `Wrappers` (wrappers.dfy): `Option` and `Result`.
- `RateSample` (rate_sample.dfy): `TcpRateSample`, `IsValid`, the zero default.
- `TxItem` (tx_item.dfy): the item's identity (start sequence number), size,
  send time and snapshot slot. The slot is `Unsent`, then `Pending(snapshot)`,
  then `Consumed`.
- `TieBreak` (tie_break.dfy): the basis selection and when it is order independent.
- `TcpRateLinux` (tcp_rate_linux.dfy): `TcpRate`, the estimator and the four operations.
- `Pass` (pass.dfy): the combined effect of one ACK's deliveries.
- `Trace` (trace.dfy): runs of calls over a pool of items, and monotonicity.
- `Scenarios` (scenarios.dfy): properties relating several calls.

Modelling choices the header leaves open:
- `isStartOfTransmission` is documented only as "nothing in flight"; the
  header does not say what it changes. In the model, a start of transmission
  moves the first-sent and delivered times to `now` before the snapshot is
  taken, so an idle period does not count in the next interval.
- An item's send time is the clock of its send event: in a run, the `Sent`
  step stamps the item's last send time with the event's `now` before calling
  `SkbSent` (`SendStampsClock`). The socket code that sets the send time is
  not part of this model.
- Delivering an item that was never sent, delivering it a second time, or
  listing it twice in one pass is a caller error. It is returned as a
  `Failure` (`NeverSent`, `AlreadyDelivered`).
- The tie-break lets an item take over when the sample holds count 0 or the
  item's 64-bit snapshot count is strictly higher than the held 32-bit count.
  Ties are not broken by recency, and a held count of 0 cannot be told apart
  from "no basis". Once counts pass 2^32, the truncated held count makes the
  result depend on the delivery order (`WrapMakesPassOrderDependent`).
  The header describes the favoured item as "the most recently sent skb,
  i.e., the skb with the highest prior_delivered count". The two are not the
  same: items sent between the same two deliveries share a count, and an ACK
  that covers them in sequence order keeps the one sent first
  (`SameBurstKeepsEarlierSent`).
- Taking over fills four sample fields. `m_priorDelivered` gets the snapshot
  count cut to 32 bits. `m_priorTime` gets the snapshot's delivered time.
  `m_isAppLimited` gets the snapshot's flag. `m_sendElapsed` ("send time
  interval calculated from the most recent packet delivered") gets the item's
  send time minus the first-sent time in its snapshot.
- `m_firstSentTime` is documented as the send time of the packet most recently
  marked as delivered. The model moves it only when that packet takes over as
  the basis, so it stays tied to the basis.
- `SampleGen` treats a zero `m_priorTime` as "no timing information". This is
  the field `IsValid` also reads. An item whose snapshot carries delivered
  time 0 therefore never yields a sample (`SentAtTimeZeroGivesNoSample`).
- `SampleGen` sets `m_lastAckedSackedBytes` ("size of data sacked in the last
  ack") to its `delivered` argument.
- The sample's `m_delivered` ("data marked as delivered over the sampling
  interval") is the delivered total minus the held prior count, computed as
  unsigned arithmetic and cut to 32 bits.
- A reneged SACK, a sample without timing information, or a non-positive
  interval yields the all-zero sample. That sample has a zero rate, is invalid
  under `IsValid`, and never reaches `rateOf`. After `SampleGen`, the
  estimator keeps the produced sample with its prior count and prior time
  cleared, so the next pass starts without a basis.

Validity: the structure's doc comment says a sample is invalid if "delivered"
or the interval is negative. `IsValid` instead accepts a sample when its prior
time OR its interval is non-zero. The model follows the code (`IsValid`), and
`IsValidDivergesFromDocComment` shows the divergence in both directions. A
sample with a zero interval but a non-zero prior time is valid. A negative
interval is valid. The all-zero sample, which has nothing negative, is invalid.
The samples `SampleGen` produces satisfy the stricter rule as well: when valid,
their interval is positive.

## Model

| member | source | states |
|---|---|---|
| `RateSample.DefaultSample` | src/internet/model/tcp-rate-ops.h:109-129 | a default-constructed sample has every field zero and is therefore not valid |
| `RateSample.IsValidReadsOnlyTimes` | src/internet/model/tcp-rate-ops.h:126-129 | validity depends only on the prior time and the interval; a sample is invalid exactly when both are zero, whatever its delivered count or rate |
| `RateSample.IsValidDivergesFromDocComment` | src/internet/model/tcp-rate-ops.h:107-129 | `IsValid` differs from the doc comment's "invalid if delivered or interval negative" both ways: a negative or zero interval with a non-zero prior time is valid, the all-zero sample is invalid; a positive interval implies validity |
| `TcpRateLinux.FreshRate` | src/internet/model/tcp-rate-ops.h:160-168 | fresh counters: delivered total, delivered time, first-sent time, app-limited index, tx-item count and last acked/sacked bytes are all zero |
| `TcpRateLinux.Fresh` | src/internet/model/tcp-rate-ops.h:170-172 | a new estimator has zero counters and a default sample, which holds no basis and is not valid |
| `TcpRateLinux.SkbSent` | src/internet/model/tcp-rate-ops.h:42-52 | the item's slot gets the current delivered total, delivered time, first-sent time and app-limited flag, and nothing else in the item changes; without a start of transmission the counters are untouched; on a start of transmission (nothing in flight) the model's own choice moves both times to now first |
| `TcpRateLinux.SkbDelivered` | src/internet/model/tcp-rate-ops.h:54-66 | an (s)acked item adds its size to the 64-bit delivered total and sets the delivered time to now; it fills the sample's prior count (cut to 32 bits), prior time, app-limited flag and send-elapsed time exactly when the sample's held count is 0 or below the item's count, and otherwise leaves the sample alone; the item is marked consumed; an unsent or already delivered item is refused |
| `TcpRateLinux.CalculateAppLimited` | src/internet/model/tcp-rate-ops.h:68-81 | only the app-limited index changes, to the detector's verdict on the window, in-flight, segment size and sequence inputs and the current counters |
| `TcpRateLinux.SampleGen` | src/internet/model/tcp-rate-ops.h:83-96 | the produced sample is valid exactly when no SACK was reneged, the held basis has a non-zero prior time and the interval is positive; a valid sample keeps the held prior fields and carries the data delivered since the basis, the loss count and the rate of that data over the interval; an invalid one is the all-zero sample; the kept sample has its basis cleared |
| `TieBreak.Select` | src/internet/model/tcp-rate-ops.h:60-62 | the candidate that takes over last is one of the delivered ones; none takes over exactly when the held count is non-zero and no count exceeds it; while counts fit in 32 bits it has the highest count, strictly above a non-zero held count |
| `TieBreak.SelectCountOrderIndependent` | src/internet/model/tcp-rate-ops.h:57-62 | while counts fit in 32 bits, the held count after the deliveries is the same for any order of the same deliveries |
| `TieBreak.SelectOrderIndependent` | src/internet/model/tcp-rate-ops.h:57-62 | while counts fit in 32 bits and no two candidates share a count, the kept basis is the same for any order |
| `TieBreak.TieBreakOnEqualCounts` | src/internet/model/tcp-rate-ops.h:60-62 | of two candidates with the same count the first delivered stays (the last one when the count is 0), so with ties the kept basis depends on the order |
| `Scenarios.SameBurstKeepsEarlierSent` | src/internet/model/tcp-rate-ops.h:60-62 | two items sent at 10 and 11 with no delivery in between share the count 1000; delivering them in sequence order keeps the one sent at 10 (first-sent time 10, send-elapsed 0), the reverse order the one sent at 11 |
| `Pass.DistinctPermutation` | src/internet/model/tcp-rate-ops.h:60-61 | reordering one ACK's items cannot make an item appear twice, so the order-independence lemmas need distinctness of one order only |
| `Pass.DeliverAll` | src/internet/model/tcp-rate-ops.h:60-66 | one ACK's repeated `SkbDelivered` calls all succeed exactly when every item still holds an unconsumed snapshot and no item is listed twice |
| `Pass.DeliverAllEffect` | src/internet/model/tcp-rate-ops.h:54-66 | a pass adds the items' total size (mod 2^64) to the delivered total, sets the delivered time to now, and leaves the sample's prior fields and the first-sent time as the last item to take over set them |
| `Pass.SumSizesPermutation` | src/internet/model/tcp-rate-ops.h:162 | the bytes a pass adds to the delivered total do not depend on the order of the items |
| `Pass.DeliverAllCountsOrderIndependent` | src/internet/model/tcp-rate-ops.h:57-62 | any reordering of one ACK's deliveries gives the same delivered total and delivered time, and, while counts fit in 32 bits, the same held prior-delivered count |
| `Pass.DeliverAllOrderIndependent` | src/internet/model/tcp-rate-ops.h:57-62 | while counts fit in 32 bits and are distinct, any reordering of one ACK's deliveries gives the same estimator |
| `Pass.WrapMakesPassOrderDependent` | src/internet/model/tcp-rate-ops.h:115 | with counts 2^32+10 and 2^32+5 the 32-bit held count ends at 5 or 10 depending on the delivery order, and so do the valid samples produced from the two orders |
| `Pass.PassSampleFromMostRecent` | src/internet/model/tcp-rate-ops.h:115-116 | a valid sample from a pass that started without a basis carries the prior count and prior time of a delivered item with the highest prior-delivered count |
| `Trace.RunDeliveredTimeMonotone` | src/internet/model/tcp-rate-ops.h:163 | on any accepted run whose clock never goes back, the delivered time never decreases |
| `Trace.RunDeliveredModular` | src/internet/model/tcp-rate-ops.h:162 | on any accepted run, the 64-bit delivered total grows by the bytes of the accepted deliveries, modulo 2^64 |
| `Trace.RunMonotone` | src/internet/model/tcp-rate-ops.h:162-163 | on a run too short for the 64-bit total to wrap, it grows by exactly the bytes of the accepted deliveries, and the delivered time never decreases |
| `Trace.SendStampsClock` | src/internet/model/tcp-rate-ops.h:43-66 | an item handed to a send with a stale send time of 1000 at clock 5 and acked at 6 yields first-sent time 5 and send-elapsed 0 |
| `Scenarios.SentThenDelivered` | src/internet/model/tcp-rate-ops.h:43-66 | the snapshot an item gets at send time is what its delivery puts into the sample's prior fields, and delivering it again is refused |
| `Scenarios.AppLimitedTagsNextSend` | src/internet/model/tcp-rate-ops.h:165 | after the app-limited update, the next sent item is tagged app-limited exactly when the index is non-zero |
| `Scenarios.RenegIsolatesNextPass` | src/internet/model/tcp-rate-ops.h:94-96 | a reneged SACK gives an invalid zero-rate sample and clears the basis, so after the next pass the prior fields come from one of that pass's own items |
| `Scenarios.NothingSentGivesInvalidSample` | src/internet/model/tcp-rate-ops.h:126-129 | a sample produced before anything was delivered is invalid, with a zero rate and a zero interval |
| `Scenarios.SingleItemEndToEnd` | src/internet/model/tcp-rate-ops.h:113-117 | one 100-byte item sent at 10 and acked at 60 yields a valid 100-byte sample with prior count 0 and prior time 10 |
| `Scenarios.SentAtTimeZeroGivesNoSample` | src/internet/model/tcp-rate-ops.h:116 | the same item sent at time 0 leaves a zero prior time and so gives an invalid zero-rate sample |
| `Scenarios.SampleDeliveredSinceBasis` | src/internet/model/tcp-rate-ops.h:114-115 | a valid sample's prior count plus its delivered amount equals the delivered total modulo 2^32, and exactly when nothing wrapped |

## Left out

- `GetTypeId`, the `Object` base class, virtual dispatch and the destructor: type registration with no behaviour.
- `m_rateTrace` and `m_rateSampleTrace`: trace callbacks only observe the state.
- `DataRate` construction and the rate arithmetic: `rateOf` is a parameter; the model only guarantees it is never used with a non-positive interval.
- The app-limited condition of `CalculateAppLimited`: the header gives none, so the update is the parameter `detector`. Clearing the index later is not modelled for the same reason.
- The ack-elapsed and interval formulas of `SampleGen`, including the use of `minRtt`: they are the parameter `measure`.
- `m_priorInFlight` has no documentation in the header and no input feeds it; `SampleGen` sets it to 0.
- `m_txItemDelivered` has no documentation ("TODO Adding DOC"); no operation changes it, so it stays at its zero default.
- `SampleGen` returns the sample by value, while the C++ returns a reference to `m_rateSample`. The estimator keeps the produced sample with its basis cleared.
- `TcpTxItem` beyond its start sequence number, size, last send time and snapshot slot. Sequence numbers are plain `u32` values.
- The simulator clock: time is the parameter `now`.
- TieBreak.SelectCountOrderIndependent: proved only while every count fits in 32 bits. Past that the held count is truncated and the result depends on the order (`WrapMakesPassOrderDependent`).
- TieBreak.Select: favours the highest count, not the most recent send; among equal counts the kept item is the first delivered, which need not be the most recently sent one (`SameBurstKeepsEarlierSent`).
- TieBreak.SelectOrderIndependent: proved only for counts below 2^32 that are pairwise distinct. With ties the first delivered wins (`TieBreakOnEqualCounts`).
- Pass.DeliverAllCountsOrderIndependent: the held prior-delivered count is order independent only while every count fits in 32 bits; the delivered total and time are order independent without that condition.
- Pass.DeliverAllOrderIndependent: proved only for distinct counts below 2^32, for the same two reasons.
- Pass.PassSampleFromMostRecent: stated for counts below 2^32; past that the sample need not carry the highest count.
- Trace.RunMonotone: the exact total is proved only for runs short enough that the 64-bit delivered total cannot wrap; `RunDeliveredModular` and `RunDeliveredTimeMonotone` hold without that bound.
