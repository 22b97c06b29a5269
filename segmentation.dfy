/** `processData` of the marketing dashboard: the metrics derived for every
    customer once the file is parsed, and the four spending tiers. */
module Segmentation {
  import opened Csv

  /** The four customer tiers, highest first. */
  datatype Segment = Premium | HighValue | MediumValue | LowValue

  /** The text stored in the `Segment` field and shown by the selector. */
  function Label(s: Segment): string {
    match s
    case Premium => "Premium"
    case HighValue => "High Value"
    case MediumValue => "Medium Value"
    case LowValue => "Low Value"
  }

  /** Position of a tier in the order of the tiers, `LowValue` lowest. */
  function Rank(s: Segment): nat {
    match s
    case Premium => 3
    case HighValue => 2
    case MediumValue => 1
    case LowValue => 0
  }

  const AllSegments: seq<Segment> := [Premium, HighValue, MediumValue, LowValue]

  /** The tier of a total spending: each threshold includes its lower bound.
      Exactly one tier holds, and it is the one whose band the total lies in. */
  function SegmentOf(total: real): (s: Segment)
    ensures s == Premium <==> total >= 1500.0
    ensures s == HighValue <==> 500.0 <= total < 1500.0
    ensures s == MediumValue <==> 100.0 <= total < 500.0
    ensures s == LowValue <==> total < 100.0
  {
    if total >= 1500.0 then Premium
    else if total >= 500.0 then HighValue
    else if total >= 100.0 then MediumValue
    else LowValue
  }

  /** Spending more never puts a customer in a lower tier. */
  lemma SegmentMonotone(a: real, b: real)
    requires a <= b
    ensures Rank(SegmentOf(a)) <= Rank(SegmentOf(b))
  {
  }

  /** The labels tell the tiers apart, so the label stored on a record names
      exactly one tier. */
  lemma LabelInjective(s: Segment, t: Segment)
    ensures Label(s) == Label(t) <==> s == t
  {
    if s != t {
      assert Label(s)[0] != Label(t)[0];
    }
  }

  // ----- derived fields -----

  const ReferenceYear: real := 2025.0

  /** The fields `processData` adds. */
  const DerivedFields: set<string> :=
    {"Age", "TotalSpending", "TotalPurchases", "CampaignAcceptances", "Segment"}

  /** `customer.f || 0`: the number stored under `f`, or 0 when there is none. */
  function NumOr0(r: Record, f: string): real {
    if f in r && r[f].Num? then r[f].n else 0.0
  }

  /** `2025 - customer.Year_Birth`, `NaN` when the birth year is absent. */
  function AgeOf(r: Record): Value {
    if "Year_Birth" in r && r["Year_Birth"].Num? then Num(ReferenceYear - r["Year_Birth"].n) else NaN
  }

  /** The six product categories of `TotalSpending`. */
  function Spending(r: Record): real {
    NumOr0(r, "MntWines") + NumOr0(r, "MntFruits") + NumOr0(r, "MntMeatProducts")
    + NumOr0(r, "MntFishProducts") + NumOr0(r, "MntSweetProducts") + NumOr0(r, "MntGoldProds")
  }

  /** Web, catalog and store purchases; deal purchases are not added. */
  function Purchases(r: Record): real {
    NumOr0(r, "NumWebPurchases") + NumOr0(r, "NumCatalogPurchases") + NumOr0(r, "NumStorePurchases")
  }

  /** The five campaign flags and the response flag. */
  function Acceptances(r: Record): real {
    NumOr0(r, "AcceptedCmp1") + NumOr0(r, "AcceptedCmp2") + NumOr0(r, "AcceptedCmp3")
    + NumOr0(r, "AcceptedCmp4") + NumOr0(r, "AcceptedCmp5") + NumOr0(r, "Response")
  }

  /** One customer after `processData`. The derivation only adds the five
      derived fields; every other field keeps its parsed value. */
  function Derive(r: Record): (d: Record)
    ensures d.Keys == r.Keys + DerivedFields
    ensures forall k :: k in r && k !in DerivedFields ==> d[k] == r[k]
  {
    var total := Spending(r);
    r["Age" := AgeOf(r)]
     ["TotalSpending" := Num(total)]
     ["TotalPurchases" := Num(Purchases(r))]
     ["CampaignAcceptances" := Num(Acceptances(r))]
     ["Segment" := Str(Label(SegmentOf(total)))]
  }

  /** A derived record: its derived fields agree with its raw fields. */
  predicate IsDerived(d: Record) {
    && "Age" in d && d["Age"] == AgeOf(d)
    && "TotalSpending" in d && d["TotalSpending"] == Num(Spending(d))
    && "TotalPurchases" in d && d["TotalPurchases"] == Num(Purchases(d))
    && "CampaignAcceptances" in d && d["CampaignAcceptances"] == Num(Acceptances(d))
    && "Segment" in d && d["Segment"] == Str(Label(SegmentOf(Spending(d))))
  }

  lemma NumOr0Derive(r: Record, f: string)
    requires f !in DerivedFields
    ensures NumOr0(Derive(r), f) == NumOr0(r, f)
  {
  }

  lemma SpendingDerive(r: Record)
    ensures Spending(Derive(r)) == Spending(r)
  {
    NumOr0Derive(r, "MntWines");
    NumOr0Derive(r, "MntFruits");
    NumOr0Derive(r, "MntMeatProducts");
    NumOr0Derive(r, "MntFishProducts");
    NumOr0Derive(r, "MntSweetProducts");
    NumOr0Derive(r, "MntGoldProds");
  }

  lemma PurchasesDerive(r: Record)
    ensures Purchases(Derive(r)) == Purchases(r)
  {
    NumOr0Derive(r, "NumWebPurchases");
    NumOr0Derive(r, "NumCatalogPurchases");
    NumOr0Derive(r, "NumStorePurchases");
  }

  lemma AcceptancesDerive(r: Record)
    ensures Acceptances(Derive(r)) == Acceptances(r)
  {
    NumOr0Derive(r, "AcceptedCmp1");
    NumOr0Derive(r, "AcceptedCmp2");
    NumOr0Derive(r, "AcceptedCmp3");
    NumOr0Derive(r, "AcceptedCmp4");
    NumOr0Derive(r, "AcceptedCmp5");
    NumOr0Derive(r, "Response");
  }

  /** The derived fields are read from fields the derivation does not write,
      so the values a derived record holds are the ones its raw fields give. */
  lemma DeriveReadsRawFields(r: Record)
    ensures AgeOf(Derive(r)) == AgeOf(r)
    ensures Spending(Derive(r)) == Spending(r)
    ensures Purchases(Derive(r)) == Purchases(r)
    ensures Acceptances(Derive(r)) == Acceptances(r)
  {
    assert "Year_Birth" !in DerivedFields;
    SpendingDerive(r);
    PurchasesDerive(r);
    AcceptancesDerive(r);
  }

  /** After `processData` every customer carries consistent derived fields:
      `Age`, the three sums, and the one tier its spending falls in. */
  lemma DeriveIsDerived(r: Record)
    ensures IsDerived(Derive(r))
    ensures Derive(r)["TotalSpending"].Num? && Derive(r)["CampaignAcceptances"].Num?
  {
    DeriveReadsRawFields(r);
  }

  lemma UpdateSame(m: Record, k: string, v: Value)
    requires k in m && m[k] == v
    ensures m[k := v] == m
  {
  }

  /** Deriving again changes nothing: the derived values only depend on raw
      fields, which the derivation leaves alone. */
  lemma DeriveIdempotent(r: Record)
    ensures Derive(Derive(r)) == Derive(r)
  {
    var d := Derive(r);
    DeriveIsDerived(r);
    var total := Spending(d);
    UpdateSame(d, "Age", AgeOf(d));
    UpdateSame(d, "TotalSpending", Num(total));
    UpdateSame(d, "TotalPurchases", Num(Purchases(d)));
    UpdateSame(d, "CampaignAcceptances", Num(Acceptances(d)));
    UpdateSame(d, "Segment", Str(Label(SegmentOf(total))));
  }

  /** `processData` over a list of customers. */
  function DeriveAll(rs: seq<Record>): (ds: seq<Record>)
    ensures |ds| == |rs|
    ensures forall i :: 0 <= i < |rs| ==> ds[i].Keys == rs[i].Keys + DerivedFields
  {
    seq(|rs|, i requires 0 <= i < |rs| => Derive(rs[i]))
  }

  /** Every customer of a derived list carries consistent derived fields. */
  lemma DeriveAllIsDerived(rs: seq<Record>)
    ensures forall d :: d in DeriveAll(rs) ==> IsDerived(d)
  {
    forall d | d in DeriveAll(rs) ensures IsDerived(d) {
      var i :| 0 <= i < |rs| && DeriveAll(rs)[i] == d;
      DeriveIsDerived(rs[i]);
    }
  }

  /** A derived record's `Segment` field holds the label of its tier, a
      number under `TotalSpending` and `CampaignAcceptances`. */
  lemma DerivedSegment(d: Record)
    requires IsDerived(d)
    ensures d["Segment"] == Str(Label(SegmentOf(d["TotalSpending"].n)))
  {
  }

  /** A parsed row with `Year_Birth` 1980 gets `Age` 45 and its `MntWines`
      counts toward `TotalSpending`. */
  lemma DeriveExample(r: Record)
    requires r == map["Year_Birth" := Num(1980.0), "Income" := Num(50000.0), "MntWines" := Num(200.0)]
    ensures Derive(r)["Age"] == Num(45.0)
    ensures Derive(r)["TotalSpending"] == Num(200.0)
    ensures Derive(r)["Segment"] == Str("Medium Value")
  {
    ExampleFields(r);
    assert SegmentOf(200.0) == MediumValue;
  }

  lemma ExampleFields(r: Record)
    requires r == map["Year_Birth" := Num(1980.0), "Income" := Num(50000.0), "MntWines" := Num(200.0)]
    ensures AgeOf(r) == Num(45.0)
    ensures Spending(r) == 200.0
  {
    assert NumOr0(r, "MntWines") == 200.0;
    assert NumOr0(r, "MntFruits") == 0.0;
    assert NumOr0(r, "MntMeatProducts") == 0.0;
    assert NumOr0(r, "MntFishProducts") == 0.0;
    assert NumOr0(r, "MntSweetProducts") == 0.0;
    assert NumOr0(r, "MntGoldProds") == 0.0;
  }
}
