/** The two working lists of the marketing dashboard, `rawData` and
    `filteredData`, and the operations that reassign them: loading, deriving,
    filtering and resetting. */
module Dashboard {
  import opened Wrappers
  import opened Text
  import opened Csv
  import opened Segmentation
  import opened Filters

  class DashboardData {
    /** Every customer of the file, after derivation. */
    var rawData: seq<Record>
    /** The customers the charts and KPIs are computed from. */
    var filteredData: seq<Record>

    /** The page starts with both lists empty. */
    constructor ()
      ensures rawData == [] && filteredData == []
    {
      rawData := [];
      filteredData := [];
    }

    /** `loadData` with the fetched text as a parameter: `None` stands for a
        failed fetch, after which nothing is changed. Otherwise the text is
        parsed, both lists get the parsed customers, and they are derived. */
    method LoadData(fetched: Option<string>) returns (loaded: bool)
      modifies this
      ensures loaded <==> fetched.Some?
      ensures !loaded ==> rawData == old(rawData) && filteredData == old(filteredData)
      ensures loaded ==> rawData == DeriveAll(ParseCsv(fetched.value)) && filteredData == rawData
      ensures loaded ==> forall r :: r in rawData ==> IsDerived(r)
    {
      if fetched.None? {
        return false;
      }
      var parsed := ParseRows(fetched.value);
      rawData := parsed;
      filteredData := rawData;
      ProcessData();
      DeriveAllIsDerived(parsed);
      loaded := true;
    }

    /** `processData`: each customer gets its derived fields in place. The two
        lists hold the same objects, so each updated record is written back to
        both. */
    method ProcessData()
      requires filteredData == rawData
      modifies this
      ensures rawData == DeriveAll(old(rawData))
      ensures filteredData == rawData
    {
      var n := |filteredData|;
      var i := 0;
      while i < n
        invariant 0 <= i <= n
        invariant |rawData| == n && filteredData == rawData
        invariant forall j :: 0 <= j < i ==> rawData[j] == Derive(old(rawData)[j])
        invariant forall j :: i <= j < n ==> rawData[j] == old(rawData)[j]
      {
        var customer := Derive(filteredData[i]);
        filteredData := filteredData[i := customer];
        rawData := rawData[i := customer];
        i := i + 1;
      }
    }

    /** The option lists of `populateFilters`: the distinct non-empty countries
        and education levels of `rawData`, each once and ascending, and the
        four tiers. */
    method PopulateFilters() returns (countries: seq<string>, education: seq<string>, segments: seq<string>)
      ensures forall x :: x in countries <==> x != "" && exists r :: r in rawData && FieldText(r, "Country") == x
      ensures forall i, j :: 0 <= i < j < |countries| ==> Less(countries[i], countries[j])
      ensures forall x :: x in education <==> x != "" && exists r :: r in rawData && FieldText(r, "Education") == x
      ensures forall i, j :: 0 <= i < j < |education| ==> Less(education[i], education[j])
      ensures segments == ["Premium", "High Value", "Medium Value", "Low Value"]
    {
      countries := SelectorOptions(rawData, "Country");
      education := SelectorOptions(rawData, "Education");
      segments := SegmentOptions;
      SelectorOptionsSpec(rawData, "Country");
      SelectorOptionsSpec(rawData, "Education");
    }

    /** `applyFilters` with the three selector values as parameters:
        `filteredData` becomes the customers of `rawData` that match, in
        their order; `rawData` is left alone. */
    method ApplyFilters(country: string, education: string, segment: string)
      modifies this
      ensures rawData == old(rawData)
      ensures filteredData == FilterRecords(rawData, Selection(country, education, segment))
      ensures Subsequence(filteredData, rawData)
      ensures forall r :: r in filteredData ==> Matches(r, Selection(country, education, segment))
    {
      filteredData := FilterRecords(rawData, Selection(country, education, segment));
      FilterSpec(rawData, Selection(country, education, segment));
    }

    /** `resetFilters`: every selector back on `'all'` and `filteredData` a
        copy of `rawData`, which is what filtering on those selectors gives. */
    method ResetFilters() returns (sel: Selection)
      modifies this
      ensures sel == NoConstraint
      ensures rawData == old(rawData) && filteredData == rawData
      ensures filteredData == FilterRecords(rawData, sel)
    {
      sel := NoConstraint;
      filteredData := rawData;
      FilterNoConstraint(rawData);
    }
  }
}
