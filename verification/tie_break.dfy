/**
 * The basis selection of `SkbDelivered`: when one ACK (s)acks several items,
 * an item takes over as the basis of the rate sample when its prior-delivered
 * count is higher than the one the sample holds. The sample holds that count
 * in its 32-bit `m_priorDelivered`, where 0 means that no basis is held yet;
 * each item's 64-bit snapshot count is compared against it.
 *
 * The highest count wins while counts fit in 32 bits; on equal counts the
 * item delivered first stays (the last one when the count is 0); past 2^32
 * the truncated held count can let a lower count win. Items sent between the
 * same two deliveries share a count, so the kept item is not always the most
 * recently sent one.
 */
module TieBreak {
  import opened Wrappers
  import opened Units
  import opened TxItem

  /** A candidate basis: an item's send-time snapshot and the time it was last sent. */
  datatype Basis = Basis(info: RateInfo, sentTime: Time)

  /** The 64-bit prior-delivered count a candidate carries. */
  function Key(b: Basis): u64 {
    b.info.delivered
  }

  /** The 32-bit count the sample holds once `b` is its basis. */
  function Held(b: Basis): u32 {
    Trunc32(Key(b))
  }

  /** A candidate takes over when no basis is held (count 0) or its count is strictly higher. */
  predicate Favors(held: u32, cand: Basis) {
    held == 0 || Key(cand) > held
  }

  /** Every candidate's count fits the sample's 32-bit field. */
  predicate Small(cands: seq<Basis>) {
    forall i :: 0 <= i < |cands| ==> Key(cands[i]) < TWO_32
  }

  /**
   * The candidate that takes over last when the deliveries `cands` arrive in
   * this order and the sample starts out holding the count `held`; `None` when
   * none takes over.
   */
  function Select(held: u32, cands: seq<Basis>): (r: Option<Basis>)
    ensures r.Some? ==> r.value in cands
    ensures r.None? <==> |cands| == 0 || (held != 0 && forall i :: 0 <= i < |cands| ==> Key(cands[i]) <= held)
    ensures Small(cands) && r.Some? ==> forall i :: 0 <= i < |cands| ==> Key(cands[i]) <= Key(r.value)
    ensures Small(cands) && r.Some? && held != 0 ==> held < Key(r.value)
    decreases |cands|
  {
    if |cands| == 0 then None
    else if Favors(held, cands[0]) then
      var later := Select(Held(cands[0]), cands[1..]);
      if later.Some? then later else Some(cands[0])
    else
      Select(held, cands[1..])
  }

  /** The count the sample holds after the deliveries `cands`. */
  function HeldAfter(held: u32, cands: seq<Basis>): u32 {
    var r := Select(held, cands);
    if r.Some? then Held(r.value) else held
  }

  /** No two distinct candidates share a prior-delivered count. */
  ghost predicate KeysDetermine(cands: seq<Basis>) {
    forall i, j :: 0 <= i < |cands| && 0 <= j < |cands| && Key(cands[i]) == Key(cands[j]) ==> cands[i] == cands[j]
  }

  /**
   * While the counts fit in 32 bits, the count the sample ends up holding is the
   * highest of the starting count and the candidates' counts, so it does not
   * depend on the order (or the repetition) of the deliveries.
   */
  lemma {:induction false} SelectCountOrderIndependent(held: u32, xs: seq<Basis>, ys: seq<Basis>)
    requires forall b :: b in xs <==> b in ys
    requires Small(xs)
    ensures Select(held, xs).Some? <==> Select(held, ys).Some?
    ensures HeldAfter(held, xs) == HeldAfter(held, ys)
  {
    assert Small(ys) by {
      forall j | 0 <= j < |ys|
        ensures Key(ys[j]) < TWO_32
      {
        assert ys[j] in xs;
      }
    }
    assert |xs| == 0 <==> |ys| == 0 by {
      if |xs| > 0 { assert xs[0] in ys; }
      if |ys| > 0 { assert ys[0] in xs; }
    }
    var rx, ry := Select(held, xs), Select(held, ys);
    if rx.None? && held != 0 && |xs| > 0 {
      forall j | 0 <= j < |ys|
        ensures Key(ys[j]) <= held
      {
        assert ys[j] in xs;
      }
    }
    if ry.None? && held != 0 && |ys| > 0 {
      forall i | 0 <= i < |xs|
        ensures Key(xs[i]) <= held
      {
        assert xs[i] in ys;
      }
    }
    if rx.Some? && ry.Some? {
      var i :| 0 <= i < |ys| && ys[i] == rx.value;
      var j :| 0 <= j < |xs| && xs[j] == ry.value;
    }
  }

  /**
   * While the counts fit in 32 bits and no two candidates share a count, the
   * basis the sample ends up with is the same whatever the delivery order.
   */
  lemma {:induction false} SelectOrderIndependent(held: u32, xs: seq<Basis>, ys: seq<Basis>)
    requires forall b :: b in xs <==> b in ys
    requires Small(xs) && KeysDetermine(xs)
    ensures Select(held, xs) == Select(held, ys)
  {
    SelectCountOrderIndependent(held, xs, ys);
    var rx, ry := Select(held, xs), Select(held, ys);
    if rx.Some? {
      var i :| 0 <= i < |xs| && xs[i] == rx.value;
      var j :| 0 <= j < |xs| && xs[j] == ry.value;
    }
  }

  /**
   * Equal counts are not resolved by recency. Of two candidates with the same
   * non-zero count the one delivered first stays; with count 0, which the
   * sample cannot tell from "no basis", the one delivered last stays. Either
   * way the kept basis depends on the order.
   */
  lemma TieBreakOnEqualCounts(a: Basis, b: Basis)
    requires Key(a) == Key(b) < TWO_32 && a != b
    ensures Key(a) != 0 ==> Select(0, [a, b]) == Some(a) && Select(0, [b, a]) == Some(b)
    ensures Key(a) == 0 ==> Select(0, [a, b]) == Some(b) && Select(0, [b, a]) == Some(a)
    ensures Select(0, [a, b]) != Select(0, [b, a])
  {
  }
}
