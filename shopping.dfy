/**
 * The feature encoders of the shopping classifier and its evaluation: how a
 * month, a visitor type, a weekend flag and the purchase label become
 * integers, and how sensitivity and specificity are computed from the true
 * labels and the predictions.
 */
module Shopping {
  import opened Wrappers

  /** ValueError from `list.index`, IndexError from a short row, ZeroDivisionError from `/`. */
  datatype Error = ValueError | IndexError | ZeroDivisionError

  /** The month abbreviations as they appear in the data, in calendar order. */
  const Months: seq<string> := ["Jan", "Feb", "Mar", "Apr", "May", "Jun", "Jul", "Aug", "Sep", "Oct", "Nov", "Dec"]

  /** `xs.index(x)`: the first position of `x`, or ValueError when it does not occur. */
  function IndexOf(xs: seq<string>, x: string): (r: Result<nat, Error>)
    ensures r.Success? ==> r.value < |xs| && xs[r.value] == x && x !in xs[..r.value]
    ensures r == Failure(ValueError) <==> x !in xs
  {
    if xs == [] then Failure(ValueError)
    else if xs[0] == x then Success(0)
    else
      match IndexOf(xs[1..], x)
      case Success(k) =>
        assert xs[..k + 1] == [xs[0]] + xs[1..][..k];
        Success(k + 1)
      case Failure(e) => Failure(e)
  }

  /** In a sequence without repeats, the first position of an element is its only one. */
  lemma {:induction false} IndexOfDistinct(xs: seq<string>, k: nat)
    requires k < |xs| && forall i, j :: 0 <= i < j < |xs| ==> xs[i] != xs[j]
    ensures IndexOf(xs, xs[k]) == Success(k)
  {
    if k > 0 {
      assert xs[0] != xs[k];
      assert xs[1..][k - 1] == xs[k];
      IndexOfDistinct(xs[1..], k - 1);
    }
  }

  /** `month_to_int(month)`: the month's position, 0 for "Jan" to 11 for "Dec". */
  function MonthToInt(month: string): (r: Result<nat, Error>)
    ensures r.Success? ==> r.value < 12 && Months[r.value] == month
    ensures r == Failure(ValueError) <==> month !in Months
  {
    IndexOf(Months, month)
  }

  /** No abbreviation occurs twice. */
  lemma MonthsDistinct()
    ensures forall i, j :: 0 <= i < j < |Months| ==> Months[i] != Months[j]
  {
  }

  /** Every abbreviation is encoded as its calendar position, 0 to 11. */
  lemma MonthToIntRoundTrip(k: nat)
    requires k < 12
    ensures MonthToInt(Months[k]) == Success(k)
  {
    MonthsDistinct();
    IndexOfDistinct(Months, k);
  }

  /** Any other string, such as "June" or "jan", makes `month_to_int` raise ValueError. */
  lemma MonthToIntRejects(month: string)
    requires forall k | 0 <= k < 12 :: Months[k] != month
    ensures MonthToInt(month) == Failure(ValueError)
  {
  }

  /** `visitor_type_to_int(visitor_type)`: 1 for a returning visitor, 0 for any other value. */
  function VisitorTypeToInt(visitorType: string): (r: int)
    ensures r == 0 || r == 1
    ensures r == 1 <==> visitorType == "Returning_Visitor"
  {
    if visitorType == "Returning_Visitor" then 1 else 0
  }

  /** `weekend_to_int(weekend)`: 1 for "TRUE", 0 for any other value. */
  function WeekendToInt(weekend: string): (r: int)
    ensures r == 0 || r == 1
    ensures r == 1 <==> weekend == "TRUE"
  {
    if weekend == "TRUE" then 1 else 0
  }

  /** The label of a spreadsheet row: 1 when its 18th cell, Revenue, is "TRUE"; a shorter row raises IndexError. */
  function LabelOf(row: seq<string>): (r: Result<int, Error>)
    ensures r.Failure? <==> |row| < 18
    ensures r.Success? ==> (r.value == 0 || r.value == 1) && (r.value == 1 <==> row[17] == "TRUE")
  {
    if |row| < 18 then Failure(IndexError) else Success(if row[17] == "TRUE" then 1 else 0)
  }

  // ---------------------------------------------------------------------------
  // Evaluation

  /** `zip(labels, predictions)`: the pairs, as many as the shorter sequence has. */
  function Zip(labels: seq<int>, predictions: seq<int>): (z: seq<(int, int)>)
    ensures |z| == if |labels| < |predictions| then |labels| else |predictions|
    ensures forall k | 0 <= k < |z| :: z[k] == (labels[k], predictions[k])
  {
    if labels == [] || predictions == [] then []
    else [(labels[0], predictions[0])] + Zip(labels[1..], predictions[1..])
  }

  /** `sum(1 for label, prediction in pairs if label == l and prediction == p)`. */
  function CountPairs(pairs: seq<(int, int)>, l: int, p: int): nat {
    if pairs == [] then 0
    else CountPairs(pairs[..|pairs| - 1], l, p) + (if pairs[|pairs| - 1] == (l, p) then 1 else 0)
  }

  /** The number of pairs whose true label is `l`. */
  function CountLabel(pairs: seq<(int, int)>, l: int): nat {
    if pairs == [] then 0
    else CountLabel(pairs[..|pairs| - 1], l) + (if pairs[|pairs| - 1].0 == l then 1 else 0)
  }

  /** Every value is 0 or 1. */
  predicate Binary(xs: seq<int>) {
    forall k | 0 <= k < |xs| :: xs[k] == 0 || xs[k] == 1
  }

  /** The four counts of `evaluate`. */
  datatype Confusion = Confusion(truePositive: nat, falseNegative: nat, trueNegative: nat, falsePositive: nat)

  function Counts(labels: seq<int>, predictions: seq<int>): Confusion {
    var z := Zip(labels, predictions);
    Confusion(CountPairs(z, 1, 1), CountPairs(z, 1, 0), CountPairs(z, 0, 0), CountPairs(z, 0, 1))
  }

  /**
   * `evaluate(labels, predictions)`: sensitivity, the share of actual
   * positives predicted positive, and specificity, the share of actual
   * negatives predicted negative. ZeroDivisionError when there is no
   * positive (sensitivity is divided first) or no negative.
   */
  function Evaluate(labels: seq<int>, predictions: seq<int>): (r: Result<(real, real), Error>)
    ensures var c := Counts(labels, predictions);
      r.Failure? <==> c.truePositive + c.falseNegative == 0 || c.trueNegative + c.falsePositive == 0
    ensures r.Success? ==> 0.0 <= r.value.0 <= 1.0 && 0.0 <= r.value.1 <= 1.0
  {
    var c := Counts(labels, predictions);
    if c.truePositive + c.falseNegative == 0 then Failure(ZeroDivisionError)
    else
      var sensitivity := Ratio(c.truePositive, c.truePositive + c.falseNegative);
      if c.trueNegative + c.falsePositive == 0 then Failure(ZeroDivisionError)
      else
        var specificity := Ratio(c.trueNegative, c.trueNegative + c.falsePositive);
        Success((sensitivity, specificity))
  }

  /** `part / whole` for counts, with `part` no larger than `whole`. */
  function Ratio(part: nat, whole: nat): (r: real)
    requires 0 < whole && part <= whole
    ensures 0.0 <= r <= 1.0 && r * (whole as real) == part as real
  {
    (part as real) / (whole as real)
  }

  /** Pairs with label `l` and prediction 1 or 0, together, are all pairs with label `l` when predictions are 0 or 1. */
  lemma {:induction false} LabelSplits(pairs: seq<(int, int)>, l: int)
    requires forall k | 0 <= k < |pairs| :: pairs[k].1 == 0 || pairs[k].1 == 1
    ensures CountPairs(pairs, l, 1) + CountPairs(pairs, l, 0) == CountLabel(pairs, l)
  {
    if pairs != [] {
      LabelSplits(pairs[..|pairs| - 1], l);
    }
  }

  /** With labels 0 and 1 only, the pairs with label 1 and those with label 0 are all of them. */
  lemma {:induction false} LabelsPartition(pairs: seq<(int, int)>)
    requires forall k | 0 <= k < |pairs| :: pairs[k].0 == 0 || pairs[k].0 == 1
    ensures CountLabel(pairs, 1) + CountLabel(pairs, 0) == |pairs|
  {
    if pairs != [] {
      LabelsPartition(pairs[..|pairs| - 1]);
    }
  }

  /**
   * With 0/1 predictions, TP + FN is the number of actual positives and
   * TN + FP the number of actual negatives among the zipped pairs; with 0/1
   * labels too, the four counts add up to the number of pairs.
   */
  lemma CountsPartition(labels: seq<int>, predictions: seq<int>)
    requires Binary(predictions)
    ensures var c, z := Counts(labels, predictions), Zip(labels, predictions);
      && c.truePositive + c.falseNegative == CountLabel(z, 1)
      && c.trueNegative + c.falsePositive == CountLabel(z, 0)
      && (Binary(labels) ==> c.truePositive + c.falseNegative + c.trueNegative + c.falsePositive == |z|)
  {
    var z := Zip(labels, predictions);
    LabelSplits(z, 1);
    LabelSplits(z, 0);
    if Binary(labels) {
      LabelsPartition(z);
    }
  }

  /**
   * With 0/1 predictions, `evaluate` fails exactly when the zipped labels
   * lack a positive or a negative, and otherwise gives the share of
   * positives predicted 1 and the share of negatives predicted 0.
   */
  lemma EvaluateMeaning(labels: seq<int>, predictions: seq<int>)
    requires Binary(predictions)
    ensures var z := Zip(labels, predictions);
      Evaluate(labels, predictions).Failure? <==> CountLabel(z, 1) == 0 || CountLabel(z, 0) == 0
    ensures var z := Zip(labels, predictions);
      Evaluate(labels, predictions).Success? ==>
        && Evaluate(labels, predictions).value.0 == (CountPairs(z, 1, 1) as real) / (CountLabel(z, 1) as real)
        && Evaluate(labels, predictions).value.1 == (CountPairs(z, 0, 0) as real) / (CountLabel(z, 0) as real)
  {
    CountsPartition(labels, predictions);
  }
}
