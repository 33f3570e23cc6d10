/**
  The recommendation advisor: an integer score for a pending report built
  from the submitter's record and the vehicles that corroborate it, with a
  label and the list of factors that produced it. Advisory only: nothing
  in the ledger depends on it.
 */
module Advisor {
  import opened State

  /** What is known of one corroborating report's vehicle. */
  datatype Detail = Detail(vehicleReputation: int, vehicleFalseReports: int)

  datatype Label = LikelyValid | Neutral | LikelyFalse

  /** One contributing factor, in the order the advisor weighs them. */
  datatype Reason =
    | HighReputation                        // reputation of at least 70
    | LowReputation                         // reputation below 30
    | FalseReportHistory                    // more than 3 false reports
    | TrustworthyCorroboration(count: nat)  // at least two trustworthy corroborators
    | MixedCorroboration(count: nat)        // two or more corroborators, fewer than two trustworthy
    | SingleCorroboration
    | Isolated                              // no corroborating report

  datatype Recommendation = Recommendation(advice: Label, score: int, reasons: seq<Reason>)

  /** Each factor's contribution to the score. */
  function Weight(r: Reason): int {
    match r
    case HighReputation => 2
    case LowReputation => -2
    case FalseReportHistory => -3
    case TrustworthyCorroboration(_) => 3
    case MixedCorroboration(_) => 1
    case SingleCorroboration => 1
    case Isolated => -1
  }

  /** Position of a factor in the evaluation order: reputation, history, corroboration. */
  function Stage(r: Reason): nat {
    match r
    case HighReputation => 0
    case LowReputation => 0
    case FalseReportHistory => 1
    case _ => 2
  }

  function TotalWeight(rs: seq<Reason>): int {
    if |rs| == 0 then 0 else Weight(rs[0]) + TotalWeight(rs[1..])
  }

  predicate Trustworthy(d: Detail) {
    d.vehicleReputation >= 50 && d.vehicleFalseReports <= 2
  }

  /** How many corroborators are trustworthy: none exactly when no one is, all exactly when everyone is. */
  function CountTrustworthy(ds: seq<Detail>): (n: nat)
    ensures n <= |ds|
    ensures n == 0 <==> forall i :: 0 <= i < |ds| ==> !Trustworthy(ds[i])
    ensures n == |ds| <==> forall i :: 0 <= i < |ds| ==> Trustworthy(ds[i])
  {
    if |ds| == 0 then 0
    else (if Trustworthy(ds[0]) then 1 else 0) + CountTrustworthy(ds[1..])
  }

  function LabelOf(score: int): Label {
    if score >= 3 then LikelyValid
    else if score <= -2 then LikelyFalse
    else Neutral
  }

  function ReputationReasons(v: Vehicle): seq<Reason> {
    if v.reputation >= 70 then [HighReputation]
    else if v.reputation < 30 then [LowReputation]
    else []
  }

  function HistoryReasons(v: Vehicle): seq<Reason> {
    if v.falseReports > 3 then [FalseReportHistory] else []
  }

  function ReputationTerm(v: Vehicle): int {
    if v.reputation >= 70 then 2 else if v.reputation < 30 then -2 else 0
  }

  function HistoryTerm(v: Vehicle): int {
    if v.falseReports > 3 then -3 else 0
  }

  function CorroborationReason(ds: seq<Detail>): Reason {
    if |ds| >= 2 then
      var trusted := CountTrustworthy(ds);
      if trusted >= 2 then TrustworthyCorroboration(trusted) else MixedCorroboration(|ds|)
    else if |ds| == 1 then SingleCorroboration
    else Isolated
  }

  lemma TotalWeightAppend(a: seq<Reason>, b: seq<Reason>)
    ensures TotalWeight(a + b) == TotalWeight(a) + TotalWeight(b)
    decreases |a|
  {
    if |a| > 0 {
      assert (a + b)[0] == a[0];
      assert (a + b)[1..] == a[1..] + b;
      TotalWeightAppend(a[1..], b);
    } else {
      assert a + b == b;
    }
  }

  /** The reasons the advisor lists, in evaluation order. */
  function ReasonsFor(v: Vehicle, ds: seq<Detail>): seq<Reason> {
    ReputationReasons(v) + HistoryReasons(v) + [CorroborationReason(ds)]
  }

  lemma ReasonsListedByCondition(v: Vehicle, ds: seq<Detail>)
    ensures HighReputation in ReasonsFor(v, ds) <==> v.reputation >= 70
    ensures LowReputation in ReasonsFor(v, ds) <==> v.reputation < 30
    ensures FalseReportHistory in ReasonsFor(v, ds) <==> v.falseReports > 3
  {
    var rs := ReasonsFor(v, ds);
    assert rs == ReputationReasons(v) + (HistoryReasons(v) + [CorroborationReason(ds)]);
  }

  lemma ReasonsInStageOrder(v: Vehicle, ds: seq<Detail>)
    ensures 1 <= |ReasonsFor(v, ds)| <= 3
    ensures ReasonsFor(v, ds)[|ReasonsFor(v, ds)| - 1] == CorroborationReason(ds)
    ensures forall i, j :: 0 <= i < j < |ReasonsFor(v, ds)| ==>
              Stage(ReasonsFor(v, ds)[i]) < Stage(ReasonsFor(v, ds)[j])
  {
  }

  lemma ScoreIsTotalWeight(v: Vehicle, ds: seq<Detail>)
    ensures TotalWeight(ReasonsFor(v, ds))
            == ReputationTerm(v) + HistoryTerm(v) + Weight(CorroborationReason(ds))
  {
    TotalWeightAppend(ReputationReasons(v), HistoryReasons(v));
    TotalWeightAppend(ReputationReasons(v) + HistoryReasons(v), [CorroborationReason(ds)]);
    assert TotalWeight([CorroborationReason(ds)]) == Weight(CorroborationReason(ds));
  }

  /**
    Scores a report from its vehicle and the details of its corroborators.
    Each factor is listed exactly when its condition on the vehicle or the
    corroborators holds, and the score is exactly the weight of the listed
    reasons, one to three of them, in evaluation order and ending with the
    corroboration factor; it lies in [-6, 5]; and the label is LIKELY VALID
    from 3 up, LIKELY FALSE from -2 down, NEUTRAL in between.
   */
  function GetValidationRecommendation(v: Vehicle, ds: seq<Detail>): (rec: Recommendation)
    ensures rec.score == TotalWeight(rec.reasons)
    ensures 1 <= |rec.reasons| <= 3
    ensures HighReputation in rec.reasons <==> v.reputation >= 70
    ensures LowReputation in rec.reasons <==> v.reputation < 30
    ensures FalseReportHistory in rec.reasons <==> v.falseReports > 3
    ensures |ds| == 0 ==> rec.reasons[|rec.reasons| - 1] == Isolated
    ensures |ds| == 1 ==> rec.reasons[|rec.reasons| - 1] == SingleCorroboration
    ensures |ds| >= 2 && CountTrustworthy(ds) >= 2
            ==> rec.reasons[|rec.reasons| - 1] == TrustworthyCorroboration(CountTrustworthy(ds))
    ensures |ds| >= 2 && CountTrustworthy(ds) < 2
            ==> rec.reasons[|rec.reasons| - 1] == MixedCorroboration(|ds|)
    ensures forall i, j :: 0 <= i < j < |rec.reasons| ==> Stage(rec.reasons[i]) < Stage(rec.reasons[j])
    ensures Stage(rec.reasons[|rec.reasons| - 1]) == 2
    ensures -6 <= rec.score <= 5
    ensures rec.advice == LikelyValid <==> rec.score >= 3
    ensures rec.advice == LikelyFalse <==> rec.score <= -2
    ensures rec.advice == Neutral <==> -2 < rec.score < 3
  {
    ReasonsListedByCondition(v, ds);
    ReasonsInStageOrder(v, ds);
    ScoreIsTotalWeight(v, ds);
    var score := ReputationTerm(v) + HistoryTerm(v) + Weight(CorroborationReason(ds));
    Recommendation(LabelOf(score), score, ReasonsFor(v, ds))
  }

  lemma CountTrustworthyAppend(ds: seq<Detail>, d: Detail)
    ensures CountTrustworthy(ds + [d]) == CountTrustworthy(ds) + (if Trustworthy(d) then 1 else 0)
    decreases |ds|
  {
    if |ds| > 0 {
      assert (ds + [d])[1..] == ds[1..] + [d];
      CountTrustworthyAppend(ds[1..], d);
    }
  }

  /** One more corroborating report never lowers the score. */
  lemma {:induction false} MoreCorroborationNeverHurts(v: Vehicle, ds: seq<Detail>, d: Detail)
    ensures GetValidationRecommendation(v, ds + [d]).score >= GetValidationRecommendation(v, ds).score
  {
    CountTrustworthyAppend(ds, d);
  }

  /** A better reputation never lowers the score. */
  lemma ScoreMonotoneInReputation(v: Vehicle, w: Vehicle, ds: seq<Detail>)
    requires v.reputation <= w.reputation && v.falseReports == w.falseReports
    ensures GetValidationRecommendation(v, ds).score <= GetValidationRecommendation(w, ds).score
  {
  }

  /** More false reports never raise the score. */
  lemma ScoreAntitoneInFalseReports(v: Vehicle, w: Vehicle, ds: seq<Detail>)
    requires v.reputation == w.reputation && v.falseReports <= w.falseReports
    ensures GetValidationRecommendation(w, ds).score <= GetValidationRecommendation(v, ds).score
  {
  }

  /**
    A reputable vehicle with a clean record and two trustworthy
    corroborators scores 2 + 3 = 5 and is labelled LIKELY VALID.
   */
  lemma TrustedCorroborationExample()
    ensures var rec := GetValidationRecommendation(Vehicle("V1", 80, 3, 0),
                                                   [Detail(60, 0), Detail(55, 2)]);
            rec.score == 5 && rec.advice == LikelyValid
            && rec.reasons == [HighReputation, TrustworthyCorroboration(2)]
  {
    var ds := [Detail(60, 0), Detail(55, 2)];
    assert CountTrustworthy(ds) == 2 by {
      assert ds[1..] == [Detail(55, 2)];
    }
  }
}
