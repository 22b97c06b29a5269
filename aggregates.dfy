/** The read-only reductions of the marketing dashboard over the current
    view: `calculateKPIs`, the ROAS indicator of `updateKPIs`, and the
    per-label counts and totals the charts are drawn from. */
module Aggregates {
  import opened Wrappers
  import opened Text
  import opened Csv
  import opened Segmentation
  import opened Filters

  // ----- sums -----

  /** `rs.reduce((sum, c) => sum + g(c), 0)`. */
  function SumOf(rs: seq<Record>, g: Record -> real): real {
    if rs == [] then 0.0 else g(rs[0]) + SumOf(rs[1..], g)
  }

  /** The total of a numeric field over `rs`, reading an absent field as 0. */
  function FieldTotal(rs: seq<Record>, field: string): real {
    SumOf(rs, r => NumOr0(r, field))
  }

  function Revenue(rs: seq<Record>): real { FieldTotal(rs, "TotalSpending") }

  function PurchaseCount(rs: seq<Record>): real { FieldTotal(rs, "TotalPurchases") }

  function AcceptanceCount(rs: seq<Record>): real { FieldTotal(rs, "CampaignAcceptances") }

  /** Customers who accepted at least one offer. */
  predicate Responded(r: Record) {
    NumOr0(r, "CampaignAcceptances") > 0.0
  }

  /** Spending of the customers who accepted at least one offer. */
  function CampaignRevenue(rs: seq<Record>): (x: real)
    ensures (forall r :: r in rs ==> Responded(r)) ==> x == Revenue(rs)
    ensures (forall r :: r in rs ==> !Responded(r)) ==> x == 0.0
  {
    KeepAllIn(rs, r => Responded(r));
    KeepNoneIn(rs, r => Responded(r));
    Revenue(Keep(rs, r => Responded(r)))
  }

  // ----- KPIs -----

  /** The cost `calculateKPIs` assumes per customer. */
  const CostPerCustomer: real := 10.0

  /** The number of offer fields in `CampaignAcceptances`. */
  const CampaignFields: real := 6.0

  /** `den > 0 ? num / den : 0`: the guard `calculateKPIs` puts on three of
      its four ratios. */
  function Ratio(num: real, den: real): (q: real)
    ensures den > 0.0 ==> q * den == num
    ensures den <= 0.0 ==> q == 0.0
  {
    if den > 0.0 then num / den else 0.0
  }

  datatype Kpis = Kpis(
    totalCustomers: nat,
    totalRevenue: real,
    roas: real,
    customerLTV: real,
    campaignSuccessRate: real,
    avgOrderValue: real)

  /** `totalCampaignAcceptances / (totalCustomers * 6)` as written: no guard,
      so an empty view divides 0 by 0. `None` stands for that `NaN`. */
  function SuccessRateAsWritten(rs: seq<Record>): (rate: Option<real>)
    ensures rate == None <==> |rs| == 0
    ensures rate.Some? ==> rate.value * (CampaignFields * |rs| as real) == AcceptanceCount(rs)
  {
    if |rs| == 0 then None else Some(AcceptanceCount(rs) / (CampaignFields * |rs| as real))
  }

  /** On an empty view the success rate as written is `NaN`, although every
      other ratio is 0 there. */
  lemma SuccessRateAsWrittenEmpty()
    ensures SuccessRateAsWritten([]) == None
    ensures Ratio(Revenue([]), 0.0) == 0.0
  {
  }

  /** The success rate with the zero guard of the three other ratios. */
  function SuccessRate(rs: seq<Record>): (rate: real)
    ensures |rs| > 0 ==> SuccessRateAsWritten(rs) == Some(rate)
    ensures |rs| == 0 ==> rate == 0.0
  {
    Ratio(AcceptanceCount(rs), CampaignFields * |rs| as real)
  }

  /** `calculateKPIs` over a view `rs`. Every ratio is 0 when its
      denominator is not positive, and otherwise times its denominator gives
      back its numerator. */
  function CalculateKpis(rs: seq<Record>): (k: Kpis)
    ensures k.totalCustomers == |rs|
    ensures k.totalRevenue == Revenue(rs)
    ensures |rs| == 0 ==> k.roas == 0.0 && k.customerLTV == 0.0 && k.campaignSuccessRate == 0.0
    ensures |rs| > 0 ==> k.roas * (CostPerCustomer * |rs| as real) == CampaignRevenue(rs)
    ensures |rs| > 0 ==> k.customerLTV * |rs| as real == k.totalRevenue
    ensures |rs| > 0 ==> k.campaignSuccessRate * (CampaignFields * |rs| as real) == AcceptanceCount(rs)
    ensures PurchaseCount(rs) > 0.0 ==> k.avgOrderValue * PurchaseCount(rs) == k.totalRevenue
    ensures PurchaseCount(rs) <= 0.0 ==> k.avgOrderValue == 0.0
  {
    var totalCustomers := |rs|;
    var totalRevenue := Revenue(rs);
    var estimatedCost := totalCustomers as real * CostPerCustomer;
    Kpis(totalCustomers, totalRevenue,
         Ratio(CampaignRevenue(rs), estimatedCost),
         Ratio(totalRevenue, totalCustomers as real),
         SuccessRate(rs),
         Ratio(totalRevenue, PurchaseCount(rs)))
  }

  /** An empty view has no revenue, and every ratio is 0. */
  lemma EmptyViewKpis()
    ensures CalculateKpis([]) == Kpis(0, 0.0, 0.0, 0.0, 0.0, 0.0)
  {
  }

  // ----- ROAS indicator -----

  datatype RoasBand = Excellent | Good | NeedsImprovement

  /** The band of `updateKPIs`, tested from the top: 3 and more, 2 and more,
      below 2. */
  function BandOf(roas: real): (b: RoasBand)
    ensures b == Excellent <==> roas >= 3.0
    ensures b == Good <==> 2.0 <= roas < 3.0
    ensures b == NeedsImprovement <==> roas < 2.0
  {
    if roas >= 3.0 then Excellent
    else if roas >= 2.0 then Good
    else NeedsImprovement
  }

  /** The indicator text; its leading icon tells the bands apart. */
  function BandText(b: RoasBand): (t: string)
    ensures |t| > 0
    ensures b == Excellent <==> t[0] == '\U{1F680}'
    ensures b == Good <==> t[0] == '\U{1F4C8}'
    ensures b == NeedsImprovement <==> t[0] == '\U{26A0}'
  {
    match b
    case Excellent => "\U{1F680} Excellent"
    case Good => "\U{1F4C8} Good"
    case NeedsImprovement => "\U{26A0}\U{FE0F} Needs Improvement"
  }

  /** The indicator class: `kpi-change` and the band's tone. */
  function BandClass(b: RoasBand): (c: string)
    ensures |c| > 11 && c[..11] == "kpi-change "
    ensures b == Excellent <==> c[11..] == "positive"
    ensures b == Good <==> c[11..] == "neutral"
    ensures b == NeedsImprovement <==> c[11..] == "negative"
  {
    match b
    case Excellent => "kpi-change positive"
    case Good => "kpi-change neutral"
    case NeedsImprovement => "kpi-change negative"
  }

  /** With no customer the estimated cost is 0, ROAS is 0, and the indicator
      shows the lowest band. */
  lemma EmptyViewBand()
    ensures BandOf(CalculateKpis([]).roas) == NeedsImprovement
    ensures BandClass(BandOf(CalculateKpis([]).roas)) == "kpi-change negative"
  {
  }

  // ----- chart totals -----

  /** Every customer holds a number in each of `fields`. The product and
      channel charts sum with `sum + c.f` and no `|| 0`, so only then are
      their bars numbers; a missing column makes its bar `NaN`. */
  predicate HasNumbers(rs: seq<Record>, fields: set<string>) {
    forall r: Record, f: string :: r in rs && f in fields ==> f in r && r[f].Num?
  }

  const ProductFields: set<string> :=
    {"MntWines", "MntFruits", "MntMeatProducts", "MntFishProducts", "MntSweetProducts", "MntGoldProds"}

  const ChannelFields: set<string> := {"NumWebPurchases", "NumCatalogPurchases", "NumStorePurchases"}

  /** The requirement holds for every customer `processData` derives from a
      file whose header line names the numeric columns in question. */
  lemma ParsedHasNumbers(csv: string, fields: set<string>)
    requires forall f :: f in fields ==> f in Headers(csv) && IsNumericField(f) && f !in DerivedFields
    ensures HasNumbers(DeriveAll(ParseCsv(csv)), fields)
  {
    var rows := ParseCsv(csv);
    var ds := DeriveAll(rows);
    ParseCsvWellTyped(csv);
    forall r: Record, f: string | r in ds && f in fields ensures f in r && r[f].Num? {
      var i :| 0 <= i < |ds| && ds[i] == r;
      ParseCsvKeys(csv, i);
      assert rows[i] in rows;
      assert r == Derive(rows[i]);
    }
  }

  /** When every customer has the six product columns, the product chart's
      six bars add up to the revenue KPI. */
  lemma {:induction false} RevenueIsProductTotal(rs: seq<Record>)
    requires forall r :: r in rs ==> IsDerived(r)
    requires HasNumbers(rs, ProductFields)
    ensures Revenue(rs) ==
      FieldTotal(rs, "MntWines") + FieldTotal(rs, "MntMeatProducts") + FieldTotal(rs, "MntFishProducts")
      + FieldTotal(rs, "MntSweetProducts") + FieldTotal(rs, "MntFruits") + FieldTotal(rs, "MntGoldProds")
  {
    if rs != [] {
      RevenueIsProductTotal(rs[1..]);
      assert rs[0] in rs;
    }
  }

  /** When every customer has the three channel columns, the channel
      chart's three totals add up to the purchase count behind the average
      order value. */
  lemma {:induction false} PurchasesAreChannelTotal(rs: seq<Record>)
    requires forall r :: r in rs ==> IsDerived(r)
    requires HasNumbers(rs, ChannelFields)
    ensures PurchaseCount(rs) ==
      FieldTotal(rs, "NumWebPurchases") + FieldTotal(rs, "NumCatalogPurchases") + FieldTotal(rs, "NumStorePurchases")
  {
    if rs != [] {
      PurchasesAreChannelTotal(rs[1..]);
      assert rs[0] in rs;
    }
  }

  /** The campaign chart's six acceptance totals add up to the acceptances
      behind the success rate. */
  lemma {:induction false} AcceptancesAreCampaignTotal(rs: seq<Record>)
    requires forall r :: r in rs ==> IsDerived(r)
    ensures AcceptanceCount(rs) ==
      FieldTotal(rs, "AcceptedCmp1") + FieldTotal(rs, "AcceptedCmp2") + FieldTotal(rs, "AcceptedCmp3")
      + FieldTotal(rs, "AcceptedCmp4") + FieldTotal(rs, "AcceptedCmp5") + FieldTotal(rs, "Response")
  {
    if rs != [] {
      AcceptancesAreCampaignTotal(rs[1..]);
      assert rs[0] in rs;
    }
  }

  // ----- segment counts -----

  predicate HasSegment(r: Record, s: Segment) {
    "Segment" in r && r["Segment"] == Str(Label(s))
  }

  /** `rs.filter(c => c.Segment === label).length`. */
  function CountSegment(rs: seq<Record>, s: Segment): (n: nat)
    ensures n == |Keep(rs, r => HasSegment(r, s))|
    ensures n <= |rs|
    ensures (forall r :: r in rs ==> HasSegment(r, s)) ==> n == |rs|
    ensures (forall r :: r in rs ==> !HasSegment(r, s)) ==> n == 0
  {
    if rs == [] then 0 else (if HasSegment(rs[0], s) then 1 else 0) + CountSegment(rs[1..], s)
  }

  /** The counts of the segmentation chart, in its label order. */
  function SegmentCounts(rs: seq<Record>): (c: seq<nat>)
    ensures |c| == |AllSegments|
    ensures forall i :: 0 <= i < |c| ==> c[i] == CountSegment(rs, AllSegments[i]) && c[i] <= |rs|
  {
    [CountSegment(rs, Premium), CountSegment(rs, HighValue),
     CountSegment(rs, MediumValue), CountSegment(rs, LowValue)]
  }

  /** A derived customer is in exactly one tier. */
  lemma DerivedHasOneSegment(r: Record, s: Segment)
    requires IsDerived(r)
    ensures HasSegment(r, s) <==> s == SegmentOf(Spending(r))
  {
    LabelInjective(s, SegmentOf(Spending(r)));
  }

  /** Every derived customer falls in exactly one tier, so the four counts of
      the segmentation chart add up to the number of customers. */
  lemma {:induction false} SegmentCountsPartition(rs: seq<Record>)
    requires forall r :: r in rs ==> IsDerived(r)
    ensures SegmentCounts(rs)[0] + SegmentCounts(rs)[1] + SegmentCounts(rs)[2] + SegmentCounts(rs)[3] == |rs|
  {
    if rs != [] {
      SegmentCountsPartition(rs[1..]);
      assert rs[0] in rs;
      DerivedHasOneSegment(rs[0], Premium);
      DerivedHasOneSegment(rs[0], HighValue);
      DerivedHasOneSegment(rs[0], MediumValue);
      DerivedHasOneSegment(rs[0], LowValue);
    }
  }

  /** When every customer spent under 100, all of them are Low Value. */
  lemma {:induction false} AllLowValue(rs: seq<Record>)
    requires forall r :: r in rs ==> IsDerived(r) && Spending(r) < 100.0
    ensures SegmentCounts(rs) == [0, 0, 0, |rs|]
  {
    if rs != [] {
      AllLowValue(rs[1..]);
      assert rs[0] in rs;
      DerivedHasOneSegment(rs[0], Premium);
      DerivedHasOneSegment(rs[0], HighValue);
      DerivedHasOneSegment(rs[0], MediumValue);
      DerivedHasOneSegment(rs[0], LowValue);
    }
  }
}
