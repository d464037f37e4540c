/** What a transaction costs: the fee before and after dispatch, and the payment made from them. */
module Fees {
  import opened Numbers
  import opened Wrappers
  import opened FixedPoint

  datatype Class = Normal | Operational | Mandatory

  datatype Pays = Yes | No

  /** The runtime's tariff: how weight is priced, the largest weight, the weight every
      transaction of a class has at least, and the price of a byte. */
  datatype Tariff = Tariff(weightToFee: nat -> Balance, maxBlock: nat, baseWeight: Class -> nat, byteFee: Balance)

  datatype Info = Info(weight: nat, kind: Class, pays: Pays)

  datatype PostInfo = PostInfo(actualWeight: Option<nat>, pays: Pays)

  ghost predicate Monotone(t: Tariff) {
    forall x: nat, y: nat :: x <= y <= t.maxBlock ==> t.weightToFee(x) <= t.weightToFee(y)
  }

  /** Weights above the maximum are priced like the maximum. */
  function WeightToFee(t: Tariff, weight: nat): Balance { t.weightToFee(Min(weight, t.maxBlock)) }

  function LengthFee(t: Tariff, len: Balance): Balance { Saturate(t.byteFee * len) }

  function InclusionFee(t: Tariff, multiplier: Balance, len: Balance, weight: nat, kind: Class): Balance {
    SatAdd(SatAdd(WeightToFee(t, t.baseWeight(kind)), LengthFee(t, len)),
           SaturatingMulInt(multiplier, WeightToFee(t, weight)))
  }

  function FinalFee(t: Tariff, multiplier: Balance, len: Balance, weight: nat, tip: Balance, pays: Pays,
                    kind: Class): Balance {
    SatAdd(if pays == Yes then InclusionFee(t, multiplier, len, weight, kind) else 0, tip)
  }

  function ActualWeight(info: Info, post: PostInfo): nat {
    match post.actualWeight
    case None => info.weight
    case Some(w) => Min(w, info.weight)
  }

  function ActualPays(info: Info, post: PostInfo): Pays { if info.pays == No || post.pays == No then No else Yes }

  function Fee(t: Tariff, multiplier: Balance, len: Balance, info: Info, tip: Balance): Balance {
    FinalFee(t, multiplier, len, info.weight, tip, info.pays, info.kind)
  }

  function ActualFee(t: Tariff, multiplier: Balance, len: Balance, info: Info, post: PostInfo, tip: Balance): Balance {
    FinalFee(t, multiplier, len, ActualWeight(info, post), tip, ActualPays(info, post), info.kind)
  }

  // ----- what the fee is -----

  /** The price of a weight, the largest weight being the most that is charged for. */
  function PriceOf(t: Tariff, weight: nat): nat { if weight <= t.maxBlock then t.weightToFee(weight) else t.weightToFee(t.maxBlock) }

  /** The fee in numbers: base, bytes, and the weight fee scaled by the multiplier, and the tip on top. */
  function ExactFee(t: Tariff, multiplier: Balance, len: Balance, weight: nat, tip: Balance, pays: bool, kind: Class): nat {
    tip + if pays then PriceOf(t, t.baseWeight(kind)) + t.byteFee * len + multiplier * PriceOf(t, weight) / ONE else 0
  }

  lemma FinalFeeInNumbers(t: Tariff, multiplier: Balance, len: Balance, weight: nat, tip: Balance, pays: Pays, kind: Class)
    ensures FinalFee(t, multiplier, len, weight, tip, pays, kind)
            == Saturate(ExactFee(t, multiplier, len, weight, tip, pays == Yes, kind))
  {}

  /** What is withdrawn before dispatch is the fee for the declared weight; what is owed after it is the
      fee for the weight really used, if that is known and smaller, and only the tip if either side
      waives the fee. Sums beyond 128 bits are cut to the largest number. */
  lemma FeeInNumbers(t: Tariff, multiplier: Balance, len: Balance, info: Info, post: PostInfo, tip: Balance)
    ensures Fee(t, multiplier, len, info, tip)
            == Saturate(ExactFee(t, multiplier, len, info.weight, tip, info.pays == Yes, info.kind))
    ensures var used := if post.actualWeight.Some? && post.actualWeight.value < info.weight then post.actualWeight.value else info.weight;
            ActualFee(t, multiplier, len, info, post, tip)
            == Saturate(ExactFee(t, multiplier, len, used, tip, info.pays == Yes && post.pays == Yes, info.kind))
  {
    FinalFeeInNumbers(t, multiplier, len, info.weight, tip, info.pays, info.kind);
    FinalFeeInNumbers(t, multiplier, len, ActualWeight(info, post), tip, ActualPays(info, post), info.kind);
    hide FinalFee, ExactFee;
  }

  /** A paid fee grows with the multiplier, the length and the tip. */
  lemma FeeGrows(t: Tariff, m: Balance, len: Balance, info: Info, tip: Balance, m': Balance, len': Balance, tip': Balance)
    requires m <= m' && len <= len' && tip <= tip'
    ensures Fee(t, m, len, info, tip) <= Fee(t, m', len', info, tip')
  {
    MulLe(len, len', t.byteFee);
    MulLe(m, m', WeightToFee(t, info.weight));
    QuotientMonotone(m * WeightToFee(t, info.weight), m' * WeightToFee(t, info.weight), ONE);
  }

  lemma WeightToFeeMonotone(t: Tariff, x: nat, y: nat)
    requires Monotone(t) && x <= y
    ensures WeightToFee(t, x) <= WeightToFee(t, y)
  {}

  lemma ScaledMonotone(r: Balance, x: Balance, y: Balance)
    requires x <= y
    ensures SaturatingMulInt(r, x) <= SaturatingMulInt(r, y)
  {
    MulLe(x, y, r);
    QuotientMonotone(r * x, r * y, ONE);
  }

  /** What is owed after dispatch is never more than what was withdrawn before, and never less
      than the tip. */
  lemma ActualFeeAtMostFee(t: Tariff, multiplier: Balance, len: Balance, info: Info, post: PostInfo, tip: Balance)
    requires Monotone(t)
    ensures tip <= ActualFee(t, multiplier, len, info, post, tip) <= Fee(t, multiplier, len, info, tip)
  {
    WeightToFeeMonotone(t, ActualWeight(info, post), info.weight);
    ScaledMonotone(multiplier, WeightToFee(t, ActualWeight(info, post)), WeightToFee(t, info.weight));
  }

  /** No dispatch ever ends up owing more than was withdrawn for it. */
  ghost predicate NeverOwesMore(t: Tariff) {
    forall multiplier: Balance, len: Balance, info: Info, post: PostInfo, tip: Balance ::
      ActualFee(t, multiplier, len, info, post, tip) <= Fee(t, multiplier, len, info, tip)
  }

  /** Base fee and weight fee of a normal transaction fit into 128 bits together. */
  ghost predicate Affordable(t: Tariff) {
    forall x: nat :: x <= t.maxBlock ==> WeightToFee(t, t.baseWeight(Normal)) + t.weightToFee(x) <= U128_MAX
  }

  lemma PlainFee(t: Tariff, weight: nat)
    requires weight <= t.maxBlock && WeightToFee(t, t.baseWeight(Normal)) + t.weightToFee(weight) <= U128_MAX
    ensures FinalFee(t, ONE, 0, weight, 0, Yes, Normal) == WeightToFee(t, t.baseWeight(Normal)) + t.weightToFee(weight)
  {
    assert SaturatingMulInt(ONE, t.weightToFee(weight)) == t.weightToFee(weight);
  }

  /** For a tariff whose fees fit, that is so exactly when heavier is never cheaper: any tariff that
      is not monotone lets some lighter outcome cost more than was withdrawn. */
  lemma NeverOwesMoreExactlyWhen(t: Tariff)
    requires Affordable(t)
    ensures NeverOwesMore(t) <==> Monotone(t)
  {
    if Monotone(t) {
      forall multiplier: Balance, len: Balance, info: Info, post: PostInfo, tip: Balance
        ensures ActualFee(t, multiplier, len, info, post, tip) <= Fee(t, multiplier, len, info, tip)
      {
        ActualFeeAtMostFee(t, multiplier, len, info, post, tip);
      }
    }
    if NeverOwesMore(t) {
      forall x: nat, y: nat | x <= y <= t.maxBlock ensures t.weightToFee(x) <= t.weightToFee(y) {
        PlainFee(t, x);
        PlainFee(t, y);
        var info, post := Info(y, Normal, Yes), PostInfo(Some(x), Yes);
        assert ActualFee(t, ONE, 0, info, post, 0) <= Fee(t, ONE, 0, info, 0);
      }
    }
  }

  /** For example a tariff that charges for a weight of one and for nothing else. */
  lemma UnorderedTariffOwesMore()
    ensures !NeverOwesMore(Tariff(w => if w == 1 then 10 else 0, 5, _ => 0, 0))
  {
    var t := Tariff(w => if w == 1 then 10 else 0, 5, _ => 0, 0);
    NeverOwesMoreExactlyWhen(t);
    assert t.weightToFee(1) > t.weightToFee(2);
  }

  // ----- settling -----

  /** How a payment ends: the part returned to the payer, and what is handed over as fee and as
      tip; or nothing handed over when the refund exceeds the payment. */
  datatype Settlement = Settled(returned: Balance, fee: Balance, tip: Balance) | Refused(returned: Balance)

  /** Returns a refund if the account can take it, and splits the rest. */
  function Settle(payed: Balance, refund: Balance, accepted: bool, tip: Balance): Settlement {
    var returned := if accepted then refund else 0;
    if returned > payed then Refused(returned)
    else
      var payment := payed - returned;
      Settled(returned, payment - Min(payment, tip), Min(payment, tip))
  }

  function SettleAfterDispatch(t: Tariff, multiplier: Balance, len: Balance, info: Info, post: PostInfo, tip: Balance,
                               payed: Balance, fee: Balance, accepted: bool): Settlement {
    Settle(payed, SatSub(fee, ActualFee(t, multiplier, len, info, post, tip)), accepted, tip)
  }

  /** After dispatch: whatever the tariff, the payment is never refused; the payer is out of
      pocket by exactly what is handed over; the tip arrives in full; and with a monotone tariff
      an accepted refund leaves exactly the actual fee. */
  lemma SettlementConserves(t: Tariff, multiplier: Balance, len: Balance, info: Info, post: PostInfo, tip: Balance,
                            accepted: bool)
    ensures var fee := Fee(t, multiplier, len, info, tip);
            var owed := ActualFee(t, multiplier, len, info, post, tip);
            var s := SettleAfterDispatch(t, multiplier, len, info, post, tip, fee, fee, accepted);
            && s.Settled?
            && fee - s.returned == s.fee + s.tip
            && s.tip == tip
            && (accepted ==> s.fee + s.tip == Min(fee, owed))
            && (accepted && Monotone(t) ==> s.fee + s.tip == owed)
            && (!accepted ==> s.fee + s.tip == fee)
  {
    var fee, owed := Fee(t, multiplier, len, info, tip), ActualFee(t, multiplier, len, info, post, tip);
    assert tip <= fee && tip <= owed;
    if Monotone(t) { ActualFeeAtMostFee(t, multiplier, len, info, post, tip); }
  }
}
