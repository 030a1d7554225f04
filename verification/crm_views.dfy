/** The derived views of components/admin/admin-dashboard.tsx: the
    unconverted inquiries, the five most recent, and the headline metrics. */
module CrmViews {
  import opened Crm
  import Binary64

  /** `inquiries.filter(i => !i.converted_to_lead)`. */
  function Unconverted(inquiries: seq<Inquiry>): (r: seq<Inquiry>)
    ensures |r| <= |inquiries|
    ensures forall i :: 0 <= i < |r| ==> !r[i].convertedToLead && r[i] in inquiries
    ensures forall x :: x in inquiries && !x.convertedToLead ==> x in r
  {
    Filter(inquiries, (i: Inquiry) => !i.convertedToLead)
  }

  /** The number of converted inquiries. */
  function ConvertedCount(inquiries: seq<Inquiry>): (n: nat)
    ensures n <= |inquiries|
  {
    if inquiries == [] then 0
    else (if inquiries[0].convertedToLead then 1 else 0) + ConvertedCount(inquiries[1..])
  }

  /** The list keeps the loaded order: it distributes over concatenation. */
  lemma UnconvertedAppend(a: seq<Inquiry>, b: seq<Inquiry>)
    ensures Unconverted(a + b) == Unconverted(a) + Unconverted(b)
  {
    FilterAppend(a, b, (i: Inquiry) => !i.convertedToLead);
  }

  /** Every inquiry is either listed as unconverted or counted as
      converted. */
  lemma {:induction false} UnconvertedComplementsConverted(inquiries: seq<Inquiry>)
    ensures |Unconverted(inquiries)| + ConvertedCount(inquiries) == |inquiries|
  {
    if inquiries != [] {
      UnconvertedComplementsConverted(inquiries[1..]);
    }
  }

  /** `inquiries.slice(0, 5)`: the first five, or all when fewer (the list
      is loaded newest first). */
  function Recent(inquiries: seq<Inquiry>): (r: seq<Inquiry>)
    ensures r <= inquiries
    ensures |r| == if |inquiries| < 5 then |inquiries| else 5
  {
    if |inquiries| < 5 then inquiries else inquiries[..5]
  }

  datatype Metrics = Metrics(totalInquiries: nat, converted: nat, conversionRate: nat, totalLeads: nat)

  /** `Math.round(n / d)` for a non-negative exact quotient: the nearest
      integer, halves rounded up. */
  function RoundHalfUp(n: nat, d: nat): (r: nat)
    requires d > 0
    ensures 2 * r * d <= 2 * n + d < 2 * r * d + 2 * d
  {
    (2 * n + d) / (2 * d)
  }

  /** The metric cards. The rate is the percentage of converted inquiries,
      rounded to the nearest integer. */
  function ComputeMetrics(inquiries: seq<Inquiry>, leads: seq<Lead>): (m: Metrics)
    ensures m.totalInquiries == |inquiries| && m.totalLeads == |leads|
    ensures m.converted == ConvertedCount(inquiries) && m.converted <= m.totalInquiries
    ensures m.totalInquiries == 0 ==> m.conversionRate == 0
    ensures m.conversionRate <= 100
    // within half a percent of the exact ratio, either way
    ensures m.totalInquiries > 0 ==>
              2 * m.conversionRate * m.totalInquiries <= 200 * m.converted + m.totalInquiries <= 2 * m.conversionRate * m.totalInquiries + 2 * m.totalInquiries
  {
    var total := |inquiries|;
    var converted := ConvertedCount(inquiries);
    var rate := if total == 0 then 0 else RoundHalfUp(100 * converted, total);
    RateAtMostHundred(converted, total);
    Metrics(total, converted, rate, |leads|)
  }

  lemma RateAtMostHundred(c: nat, t: nat)
    requires c <= t
    ensures t > 0 ==> RoundHalfUp(100 * c, t) <= 100
  {
    if t > 0 {
      Binary64.MulMonotone(c, t, 200);
      assert 2 * (100 * c) + t < (100 + 1) * (2 * t);
      Binary64.DivAtMost(2 * (100 * c) + t, 2 * t, 100);
    }
  }

  lemma MetricsExamples()
    ensures RoundHalfUp(100, 3) == 33
    ensures RoundHalfUp(200, 3) == 67
    ensures RoundHalfUp(100, 8) == 13
  {
  }
}
