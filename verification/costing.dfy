/** The part cost model and the drawing and quotation aggregators.

    A part's effective weight is its weight plus overhead, its effective rate
    is rate + labour + laser cut + primer, and its amount is the product of
    the two. A drawing rolls its parts up into a total weight, the plain mean
    of the effective rates, and an amount. The screens use two different amount
    policies and both are kept here under their own names:
      - averaged (new-quotation screen): amount = total weight × mean rate;
      - summed (revision screen): amount = Σ part amounts.
    They agree when every part has the same effective rate and differ
    otherwise.

    The roll-ups are written once over arbitrary per-part measures
    (`Measure`) and then instantiated with the screens' measures, so that
    facts about sums and means are proved without looking inside the text
    parser. */
module Costing {
  import opened Common
  import opened Numeric

  /** A line item of a drawing. Every quantity is text, as typed on the form. */
  datatype Part = Part(
    name: string,
    material: string,
    grade: string,
    weight: string,
    overhead: string,
    rate: string,
    labour: string,
    laserCut: string,
    primer: string,
    quantity: string)

  /** Weight, blended rate and amount of one drawing. */
  datatype Totals = Totals(weight: real, avgRate: real, amount: real)

  /** A drawing with its parts. `stored` holds the totals read from the drawing
      collection; only the revision screen keeps and edits them. */
  datatype Drawing = Drawing(number: string, quantity: string, parts: seq<Part>, stored: Totals)

  /** A numeric reading of a part. */
  type Measure = Part -> real

  // ---------------------------------------------------------------------------
  // Per part
  // ---------------------------------------------------------------------------

  /** `totalWeight(part)`: weight plus overhead allowance; an empty field
      adds nothing. */
  function EffectiveWeight(p: Part): (w: real)
    ensures p.overhead == "" ==> w == Num(p.weight)
    ensures p.weight == "" ==> w == Num(p.overhead)
  {
    Num(p.weight) + Num(p.overhead)
  }

  /** `totalRate(part)`: the raw rate plus labour, laser cut and primer
      costs; empty cost fields add nothing. */
  function EffectiveRate(p: Part): (r: real)
    ensures p.labour == "" && p.laserCut == "" && p.primer == "" ==> r == Num(p.rate)
    ensures p.rate == "" && p.labour == "" && p.laserCut == "" && p.primer == "" ==> r == 0.0
  {
    Num(p.rate) + Num(p.labour) + Num(p.laserCut) + Num(p.primer)
  }

  /** `calculatePartTotal(part)`: the six fields parsed again, the rate sum
      times the weight sum. */
  function PartAmount(p: Part): (a: real)
    ensures a == EffectiveWeight(p) * EffectiveRate(p)
    ensures EffectiveWeight(p) == 0.0 || EffectiveRate(p) == 0.0 ==> a == 0.0
  {
    EffectiveRate(p) * EffectiveWeight(p)
  }

  /** The raw `rate` field alone, as `calculateAverageRate` reads it. */
  function RawRate(p: Part): real
  {
    Num(p.rate)
  }

  /** Empty fields contribute nothing: a part with weight "" and overhead "5"
      weighs 5, and a part whose cost fields are all empty has rate 0 and
      amount 0. */
  lemma EmptyFieldsCountZero(p: Part)
    requires p.weight == "" && p.overhead == "5"
    requires p.rate == "" && p.labour == "" && p.laserCut == "" && p.primer == ""
    ensures EffectiveWeight(p) == 5.0
    ensures EffectiveRate(p) == 0.0
    ensures PartAmount(p) == 0.0
  {
    EmptyIsZero();
    NumOfFormat(5);
    assert FormatNat(5) == "5";
  }

  // ---------------------------------------------------------------------------
  // Roll-ups over any measure
  // ---------------------------------------------------------------------------

  /** Mean of a measure over a part list, 0 for an empty list. */
  function Mean(ps: seq<Part>, f: Measure): (m: real)
    ensures m * |ps| as real == SumOf(ps, f)
    ensures |ps| == 0 ==> m == 0.0
  {
    MeanOf(SumOf(ps, f), |ps|)
  }

  /** Averaged policy: amount = Σ weight × mean rate. */
  function AveragedOf(ps: seq<Part>, w: Measure, r: Measure): (t: Totals)
    ensures t.weight == SumOf(ps, w)
    ensures t.avgRate == Mean(ps, r)
    ensures t.amount == t.avgRate * t.weight
    ensures |ps| == 0 ==> t == Totals(0.0, 0.0, 0.0)
  {
    var weight := SumOf(ps, w);
    var rate := Mean(ps, r);
    Totals(weight, rate, weight * rate)
  }

  /** Summed policy: amount = Σ of a per-part amount. */
  function SummedOf(ps: seq<Part>, w: Measure, r: Measure, a: Measure): (t: Totals)
    ensures t.weight == SumOf(ps, w)
    ensures t.avgRate == Mean(ps, r)
    ensures t.amount == SumOf(ps, a)
    ensures |ps| == 0 ==> t == Totals(0.0, 0.0, 0.0)
  {
    Totals(SumOf(ps, w), Mean(ps, r), SumOf(ps, a))
  }

  /** Under the averaged policy, amount × part count = Σ weight × Σ rate. */
  lemma AveragedAmountOf(ps: seq<Part>, w: Measure, r: Measure)
    ensures AveragedOf(ps, w, r).amount * |ps| as real == SumOf(ps, w) * SumOf(ps, r)
    ensures AveragedOf(ps, w, r).amount == AveragedOf(ps, w, r).avgRate * AveragedOf(ps, w, r).weight
  {
    ScaledMean(SumOf(ps, w), Mean(ps, r), |ps| as real, SumOf(ps, r));
  }

  lemma ScaledMean(total: real, mean: real, n: real, sum: real)
    requires mean * n == sum
    ensures (total * mean) * n == total * sum
    ensures total * mean == mean * total
  {
  }

  /** When each part's amount is rate × weight and every rate is c, the two
      policies give the same totals. */
  lemma UniformRateOf(ps: seq<Part>, w: Measure, r: Measure, a: Measure, c: real)
    requires forall i :: 0 <= i < |ps| ==> r(ps[i]) == c
    requires forall i :: 0 <= i < |ps| ==> a(ps[i]) == r(ps[i]) * w(ps[i])
    ensures AveragedOf(ps, w, r) == SummedOf(ps, w, r, a)
  {
    if |ps| > 0 {
      SumOfConstant(ps, r, c);
      var n := |ps| as real;
      var m := Mean(ps, r);
      assert m * n == n * c;
      assert m == c;
      SumOfScale(ps, w, a, c);
    }
  }

  /** Both policies depend only on the multiset of parts. */
  lemma OrderFreeOf(ps: seq<Part>, qs: seq<Part>, w: Measure, r: Measure, a: Measure)
    requires multiset(ps) == multiset(qs)
    ensures AveragedOf(ps, w, r) == AveragedOf(qs, w, r)
    ensures SummedOf(ps, w, r, a) == SummedOf(qs, w, r, a)
  {
    assert |ps| == |multiset(ps)| == |qs|;
    SumOfPermutation(ps, qs, w);
    SumOfPermutation(ps, qs, r);
    SumOfPermutation(ps, qs, a);
  }

  // ---------------------------------------------------------------------------
  // Per drawing
  // ---------------------------------------------------------------------------

  function SumWeight(ps: seq<Part>): real { SumOf(ps, EffectiveWeight) }

  function SumRate(ps: seq<Part>): real { SumOf(ps, EffectiveRate) }

  function SumAmount(ps: seq<Part>): real { SumOf(ps, PartAmount) }

  /** Mean effective rate, 0 for an empty part list (no division by zero). */
  function MeanRate(ps: seq<Part>): (r: real)
    ensures r * |ps| as real == SumRate(ps)
    ensures |ps| == 0 ==> r == 0.0
  {
    Mean(ps, EffectiveRate)
  }

  /** `calculateDrawingTotals` of the new-quotation screen: the amount is the
      total weight times the mean rate. */
  function AveragedTotals(d: Drawing): (t: Totals)
    ensures t.weight == SumWeight(d.parts)
    ensures t.avgRate == MeanRate(d.parts)
    ensures t.amount == t.avgRate * t.weight
    ensures |d.parts| == 0 ==> t == Totals(0.0, 0.0, 0.0)
  {
    AveragedOf(d.parts, EffectiveWeight, EffectiveRate)
  }

  /** `calculateDrawingTotals` of the revision screen: the amount is the sum of
      the part amounts. */
  function SummedTotals(d: Drawing): (t: Totals)
    ensures t.weight == SumWeight(d.parts)
    ensures t.avgRate == MeanRate(d.parts)
    ensures t.amount == SumAmount(d.parts)
    ensures |d.parts| == 0 ==> t == Totals(0.0, 0.0, 0.0)
  {
    SummedOf(d.parts, EffectiveWeight, EffectiveRate, PartAmount)
  }

  /** The two policies coincide when every part has the same effective rate. */
  lemma PoliciesAgreeOnUniformRate(d: Drawing, c: real)
    requires forall i :: 0 <= i < |d.parts| ==> EffectiveRate(d.parts[i]) == c
    ensures AveragedTotals(d) == SummedTotals(d)
  {
    UniformRateOf(d.parts, EffectiveWeight, EffectiveRate, PartAmount, c);
  }

  /** Drawing totals do not depend on the order of the parts, under either
      policy. */
  lemma TotalsIgnorePartOrder(d: Drawing, e: Drawing)
    requires multiset(d.parts) == multiset(e.parts)
    ensures AveragedTotals(d) == AveragedTotals(e)
    ensures SummedTotals(d) == SummedTotals(e)
  {
    OrderFreeOf(d.parts, e.parts, EffectiveWeight, EffectiveRate, PartAmount);
  }

  /** A two-part drawing under both policies, for any measures. */
  lemma TwoPartsOf(x: Part, y: Part, w: Measure, r: Measure, a: Measure)
    ensures AveragedOf([x, y], w, r).amount == (w(x) + w(y)) * ((r(x) + r(y)) / 2.0)
    ensures SummedOf([x, y], w, r, a).amount == a(x) + a(y)
  {
    assert [x, y][..1] == [x];
    assert [x][..0] == [];
    assert SumOf([x], w) == w(x);
    assert SumOf([x], r) == r(x);
    assert SumOf([x], a) == a(x);
    assert SumOf([x, y], r) == r(x) + r(y);
    assert Mean([x, y], r) == (r(x) + r(y)) / 2.0;
  }

  function MakePart(weight: string, overhead: string, rate: string, labour: string, laserCut: string, primer: string): Part
  {
    Part("", "", "", weight, overhead, rate, labour, laserCut, primer, "")
  }

  lemma FirstExamplePart()
    ensures var a := MakePart("10", "", "10", "", "", "");
            EffectiveWeight(a) == 10.0 && EffectiveRate(a) == 10.0
  {
    EmptyIsZero();
    NumOfFormat(10);
    assert FormatNat(10) == "10";
  }

  lemma SecondExamplePart()
    ensures var b := MakePart("20", "5", "2", "", "", "");
            EffectiveWeight(b) == 25.0 && EffectiveRate(b) == 2.0
  {
    EmptyIsZero();
    NumOfFormat(20);
    assert FormatNat(20) == "20";
    NumOfFormat(5);
    assert FormatNat(5) == "5";
    NumOfFormat(2);
    assert FormatNat(2) == "2";
  }

  /** Part A (weight 10, rate 10) and part B (weight 20 + overhead 5, rate 2):
      the averaged policy gives 35 × 6 = 210, the summed policy 100 + 50 = 150. */
  lemma PoliciesDiffer()
    ensures var d := Drawing("1", "1", [MakePart("10", "", "10", "", "", ""), MakePart("20", "5", "2", "", "", "")], Totals(0.0, 0.0, 0.0));
            AveragedTotals(d).amount == 210.0 && SummedTotals(d).amount == 150.0
  {
    var a := MakePart("10", "", "10", "", "", "");
    var b := MakePart("20", "5", "2", "", "", "");
    FirstExamplePart();
    SecondExamplePart();
    TwoPartsOf(a, b, EffectiveWeight, EffectiveRate, PartAmount);
  }

  // ---------------------------------------------------------------------------
  // Per quotation
  // ---------------------------------------------------------------------------

  /** Every part of every drawing, in drawing order. */
  function AllParts(ds: seq<Drawing>): seq<Part>
    decreases |ds|
  {
    if |ds| == 0 then [] else AllParts(ds[..|ds| - 1]) + ds[|ds| - 1].parts
  }

  /** `drawings.reduce((acc, d) => acc + d.parts.reduce(...), 0)`: the nested
      reduce every quotation-level total uses. It is the sum over all parts. */
  function NestedSum(ds: seq<Drawing>, f: Measure): (s: real)
    ensures s == SumOf(AllParts(ds), f)
    decreases |ds|
  {
    if |ds| == 0 then 0.0
    else
      var s := NestedSum(ds[..|ds| - 1], f) + SumOf(ds[|ds| - 1].parts, f);
      SumOfAppend(AllParts(ds[..|ds| - 1]), ds[|ds| - 1].parts, f);
      s
  }

  /** The nested reduce is also the sum, over drawings, of each drawing's sum. */
  lemma {:induction false} NestedSumByDrawing(ds: seq<Drawing>, f: Measure)
    ensures NestedSum(ds, f) == SumOf(ds, (d: Drawing) => SumOf(d.parts, f))
    decreases |ds|
  {
    if |ds| > 0 {
      NestedSumByDrawing(ds[..|ds| - 1], f);
    }
  }

  /** `calculateTotalWeight`: Σ effective weight over all parts. */
  function QuotationWeight(ds: seq<Drawing>): (w: real)
    ensures w == SumOf(AllParts(ds), EffectiveWeight)
  {
    NestedSum(ds, EffectiveWeight)
  }

  /** `calculateTotalAmount`: Σ over drawings of mean rate × total weight. */
  /** It is the sum of the drawings' averaged amounts. */
  function QuotationAmount(ds: seq<Drawing>): (a: real)
    ensures a == SumOf(ds, (d: Drawing) => AveragedTotals(d).amount)
  {
    SumOfCongruent(ds, (d: Drawing) => AveragedTotals(d).avgRate * AveragedTotals(d).weight,
                       (d: Drawing) => AveragedTotals(d).amount);
    SumOf(ds, (d: Drawing) => AveragedTotals(d).avgRate * AveragedTotals(d).weight)
  }

  /** Number of parts over all drawings. */
  function PartCount(ds: seq<Drawing>): (n: nat)
    ensures n == |AllParts(ds)|
    decreases |ds|
  {
    if |ds| == 0 then 0 else PartCount(ds[..|ds| - 1]) + |ds[|ds| - 1].parts|
  }

  /** Mean of a measure over all parts of all drawings, computed as the
      source does: a nested sum divided by a nested count, 0 when there are no
      parts. */
  function NestedMean(ds: seq<Drawing>, f: Measure): (m: real)
    ensures m * |AllParts(ds)| as real == SumOf(AllParts(ds), f)
    ensures |AllParts(ds)| == 0 ==> m == 0.0
  {
    MeanOf(NestedSum(ds, f), PartCount(ds))
  }

  /** `calculateAverageRate`: the mean of the raw `rate` field over all parts
      of all drawings (labour, laser cut and primer are not included). */
  function AverageRawRate(ds: seq<Drawing>): (m: real)
    ensures m == Mean(AllParts(ds), RawRate)
    ensures |AllParts(ds)| == 0 ==> m == 0.0
  {
    NestedMean(ds, RawRate)
  }

  /** Record totals written by the revision screen's save: Σ effective weight,
      Σ effective rate (a sum, not a mean) and Σ part amounts over all parts. */
  datatype SavedTotals = SavedTotals(weight: real, rate: real, amount: real)

  function SaveTotals(ds: seq<Drawing>): (t: SavedTotals)
    ensures t.weight == SumOf(AllParts(ds), EffectiveWeight)
    ensures t.rate == SumOf(AllParts(ds), EffectiveRate)
    ensures t.amount == SumOf(AllParts(ds), PartAmount)
  {
    SavedTotals(NestedSum(ds, EffectiveWeight), NestedSum(ds, EffectiveRate), NestedSum(ds, PartAmount))
  }

  /** The saved amount and weight are the sums of the drawings' summed-policy
      amounts and weights. */
  lemma SaveTotalsOfDrawings(ds: seq<Drawing>)
    ensures SaveTotals(ds).amount == SumOf(ds, (d: Drawing) => SummedTotals(d).amount)
    ensures SaveTotals(ds).weight == SumOf(ds, (d: Drawing) => SummedTotals(d).weight)
  {
    NestedSumByDrawing(ds, PartAmount);
    NestedSumByDrawing(ds, EffectiveWeight);
    SumOfCongruent(ds, (d: Drawing) => SumOf(d.parts, PartAmount), (d: Drawing) => SummedTotals(d).amount);
    SumOfCongruent(ds, (d: Drawing) => SumOf(d.parts, EffectiveWeight), (d: Drawing) => SummedTotals(d).weight);
  }

  /** The saved rate is a sum, not a mean: with n parts in all it is n times
      the overall mean effective rate. */
  lemma SavedRateIsSum(ds: seq<Drawing>)
    ensures |AllParts(ds)| > 0 ==> SaveTotals(ds).rate == |AllParts(ds)| as real * MeanRate(AllParts(ds))
  {
  }
}
