/**
 * The part of a transmitted item (`TcpTxItem`) the estimator touches: its
 * identity (the start sequence number), its size, its last send time, and the
 * slot holding the delivery snapshot taken when it was last sent.
 */
module TxItem {
  import opened Units

  /** The delivery information copied into an item when it is sent. */
  datatype RateInfo = RateInfo(
    delivered: u64,
    deliveredTime: Time,
    firstSentTime: Time,
    isAppLimited: bool)

  /**
   * The snapshot slot: empty before the first send, holding a snapshot while the
   * item is outstanding, and marked consumed once its delivery has been counted.
   */
  datatype RateSlot = Unsent | Pending(info: RateInfo) | Consumed

  datatype TcpTxItem = TcpTxItem(startSeq: u32, seqSize: u32, lastSent: Time, rate: RateSlot)
}
