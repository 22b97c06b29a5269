/** The dictionary counts behind the geography, education and acquisition
    charts of the marketing dashboard: a loop over the view that skips an
    empty key and otherwise adds one to `counts[key]`, the object's keys
    kept in insertion order. */
module Tallies {
  import opened Text
  import opened Csv
  import opened Filters

  /** A JavaScript object used as a dictionary of counts: its entries and
      the order in which its keys were first set. */
  datatype Tally = Tally(counts: map<string, nat>, order: seq<string>)

  /** The dictionary after the loop has seen `keys`, one key per customer. */
  function TallyOf(keys: seq<string>): (t: Tally)
    ensures "" !in t.counts
    ensures forall k :: k in t.order ==> k in t.counts
  {
    if keys == [] then Tally(map[], [])
    else
      var t := TallyOf(keys[..|keys| - 1]);
      var k := keys[|keys| - 1];
      if k == "" then t
      else if k in t.counts then Tally(t.counts[k := t.counts[k] + 1], t.order)
      else Tally(t.counts[k := 1], t.order + [k])
  }

  /** The counting loop of marketing_dashboard.js, run over `keys`. */
  method CountKeys(keys: seq<string>) returns (counts: map<string, nat>, order: seq<string>)
    ensures Tally(counts, order) == TallyOf(keys)
  {
    counts, order := map[], [];
    var i := 0;
    while i < |keys|
      invariant 0 <= i <= |keys|
      invariant Tally(counts, order) == TallyOf(keys[..i])
    {
      var key := keys[i];
      assert keys[..i + 1][..i] == keys[..i];
      if key != "" {
        if key in counts {
          counts := counts[key := counts[key] + 1];
        } else {
          counts := counts[key := 1];
          order := order + [key];
        }
      }
      i := i + 1;
    }
    assert keys[..i] == keys;
  }

  // ----- what the dictionary holds -----

  /** How many keys are not empty. */
  function NonEmptyKeys(keys: seq<string>): nat {
    if keys == [] then 0
    else NonEmptyKeys(keys[..|keys| - 1]) + (if keys[|keys| - 1] != "" then 1 else 0)
  }

  predicate NoDuplicates(s: seq<string>) {
    forall i, j :: 0 <= i < j < |s| ==> s[i] != s[j]
  }

  /** The sum of the counts of the keys listed in `order`. */
  function SumCounts(order: seq<string>, counts: map<string, nat>): nat
    requires forall k :: k in order ==> k in counts
  {
    if order == [] then 0
    else SumCounts(order[..|order| - 1], counts) + counts[order[|order| - 1]]
  }

  /** Counts of keys that are not listed do not enter the sum. */
  lemma {:induction false} SumCountsFrame(order: seq<string>, c1: map<string, nat>, c2: map<string, nat>)
    requires forall k :: k in order ==> k in c1 && k in c2 && c1[k] == c2[k]
    ensures SumCounts(order, c1) == SumCounts(order, c2)
  {
    if order != [] {
      SumCountsFrame(order[..|order| - 1], c1, c2);
    }
  }

  /** Adding one to a key listed once adds one to the sum. */
  lemma {:induction false} SumCountsIncrement(order: seq<string>, counts: map<string, nat>, k: string)
    requires forall x :: x in order ==> x in counts
    requires NoDuplicates(order) && k in order
    ensures SumCounts(order, counts[k := counts[k] + 1]) == SumCounts(order, counts) + 1
  {
    var init := order[..|order| - 1];
    var last := order[|order| - 1];
    var c2 := counts[k := counts[k] + 1];
    if last == k {
      assert k !in init;
      SumCountsFrame(init, counts, c2);
    } else {
      assert k in init;
      SumCountsIncrement(init, counts, k);
    }
  }

  lemma LastKey(keys: seq<string>, x: string)
    requires keys != []
    ensures x in keys <==> x in keys[..|keys| - 1] || x == keys[|keys| - 1]
  {
    assert keys == keys[..|keys| - 1] + [keys[|keys| - 1]];
  }

  /** The dictionary holds exactly the non-empty keys, each with the number
      of customers that have it. */
  lemma {:induction false} TallyCounts(keys: seq<string>)
    ensures forall k :: k in TallyOf(keys).counts <==> k != "" && k in keys
    ensures forall k :: k in TallyOf(keys).counts ==> TallyOf(keys).counts[k] == multiset(keys)[k]
  {
    if keys != [] {
      var init := keys[..|keys| - 1];
      var last := keys[|keys| - 1];
      TallyCounts(init);
      var t0 := TallyOf(init);
      var t := TallyOf(keys);
      forall x ensures x in t.counts <==> x != "" && x in keys {
        LastKey(keys, x);
      }
      assert keys == init + [last];
      assert multiset(keys) == multiset(init) + multiset{last};
    }
  }

  /** The key order lists every key of the dictionary once. */
  lemma {:induction false} TallyOrder(keys: seq<string>)
    ensures forall k :: k in TallyOf(keys).order <==> k in TallyOf(keys).counts
    ensures NoDuplicates(TallyOf(keys).order)
  {
    if keys != [] {
      TallyOrder(keys[..|keys| - 1]);
    }
  }

  /** The counts add up to the number of customers with a non-empty key. */
  lemma {:induction false} TallySum(keys: seq<string>)
    ensures forall k :: k in TallyOf(keys).order ==> k in TallyOf(keys).counts
    ensures SumCounts(TallyOf(keys).order, TallyOf(keys).counts) == NonEmptyKeys(keys)
  {
    if keys != [] {
      var init := keys[..|keys| - 1];
      var k := keys[|keys| - 1];
      TallySum(init);
      TallyOrder(init);
      var t0 := TallyOf(init);
      TallySumStep(t0, k);
      assert NonEmptyKeys(keys) == NonEmptyKeys(init) + (if k != "" then 1 else 0);
      if k == "" {
        assert TallyOf(keys) == t0;
      } else if k in t0.counts {
        assert TallyOf(keys) == Tally(t0.counts[k := t0.counts[k] + 1], t0.order);
      } else {
        assert TallyOf(keys) == Tally(t0.counts[k := 1], t0.order + [k]);
      }
    }
  }

  /** One more key adds one to the sum of the counts, unless it is empty. */
  lemma TallySumStep(t: Tally, k: string)
    requires forall x :: x in t.order <==> x in t.counts
    requires NoDuplicates(t.order)
    ensures k != "" && k in t.counts ==>
      SumCounts(t.order, t.counts[k := t.counts[k] + 1]) == SumCounts(t.order, t.counts) + 1
    ensures k != "" && k !in t.counts ==>
      SumCounts(t.order + [k], t.counts[k := 1]) == SumCounts(t.order, t.counts) + 1
  {
    if k != "" {
      if k in t.counts {
        SumCountsIncrement(t.order, t.counts, k);
      } else {
        var c := t.counts[k := 1];
        SumCountsFrame(t.order, t.counts, c);
        assert (t.order + [k])[..|t.order|] == t.order;
      }
    }
  }

  // ----- the three charts -----

  /** `c.Country` of each customer of the view, `""` when it has none. */
  function CountryKeys(rs: seq<Record>): seq<string> { FieldTexts(rs, "Country") }

  /** `c.Education` of each customer of the view. */
  function EducationKeys(rs: seq<Record>): seq<string> { FieldTexts(rs, "Education") }

  /** The geography chart counts each country some customer of the view
      has, and its counts add up to the customers with a country. */
  lemma GeoChartCounts(rs: seq<Record>)
    ensures forall k :: k in TallyOf(CountryKeys(rs)).counts <==>
      k != "" && exists r :: r in rs && FieldText(r, "Country") == k
    ensures SumCounts(TallyOf(CountryKeys(rs)).order, TallyOf(CountryKeys(rs)).counts)
         == NonEmptyKeys(CountryKeys(rs))
  {
    FieldTally(rs, "Country");
  }

  /** The education chart counts each education level some customer of the
      view has, and its counts add up to the customers with one. */
  lemma EducationChartCounts(rs: seq<Record>)
    ensures forall k :: k in TallyOf(EducationKeys(rs)).counts <==>
      k != "" && exists r :: r in rs && FieldText(r, "Education") == k
    ensures SumCounts(TallyOf(EducationKeys(rs)).order, TallyOf(EducationKeys(rs)).counts)
         == NonEmptyKeys(EducationKeys(rs))
  {
    FieldTally(rs, "Education");
  }

  lemma FieldTally(rs: seq<Record>, field: string)
    ensures forall k :: k in TallyOf(FieldTexts(rs, field)).counts <==>
      k != "" && exists r :: r in rs && FieldText(r, field) == k
    ensures SumCounts(TallyOf(FieldTexts(rs, field)).order, TallyOf(FieldTexts(rs, field)).counts)
         == NonEmptyKeys(FieldTexts(rs, field))
  {
    TallyCounts(FieldTexts(rs, field));
    TallySum(FieldTexts(rs, field));
    forall k ensures k in FieldTexts(rs, field) <==> exists r :: r in rs && FieldText(r, field) == k {
      InFieldTexts(rs, field, k);
    }
  }

  /** `c.Dt_Customer.substring(0, 7)`: the year and month of an ISO date. */
  function Month(date: string): (m: string)
    ensures |m| == if |date| < 7 then |date| else 7
    ensures m == date[..|m|]
    ensures m == "" <==> date == ""
  {
    if |date| <= 7 then date else date[..7]
  }

  /** The month of each customer's enrolment date, `""` when it has none
      (so the `if (c.Dt_Customer)` guard and the empty-key skip agree). */
  function MonthKeys(rs: seq<Record>): (ks: seq<string>)
    ensures |ks| == |rs|
  {
    seq(|rs|, i requires 0 <= i < |rs| => Month(FieldText(rs[i], "Dt_Customer")))
  }

  /** The labels of the acquisition chart: the months present, ascending. */
  function MonthLabels(rs: seq<Record>): (labels: seq<string>)
    ensures Sorted(labels)
  {
    SortStrings(TallyOf(MonthKeys(rs)).order)
  }

  /** The acquisition chart lists each month that some customer enrolled in
      exactly once, in strictly ascending order. */
  lemma MonthLabelsSpec(rs: seq<Record>)
    ensures forall m :: m in MonthLabels(rs) <==> m != "" && m in MonthKeys(rs)
    ensures forall i, j :: 0 <= i < j < |MonthLabels(rs)| ==> Less(MonthLabels(rs)[i], MonthLabels(rs)[j])
  {
    var t := TallyOf(MonthKeys(rs));
    var labels := MonthLabels(rs);
    TallyCounts(MonthKeys(rs));
    TallyOrder(MonthKeys(rs));
    forall m ensures m in labels <==> m in t.order {
      assert m in labels <==> multiset(labels)[m] > 0;
      assert m in t.order <==> multiset(t.order)[m] > 0;
    }
    forall i, j | 0 <= i < j < |labels| ensures labels[i] != labels[j] {
      if labels[i] == labels[j] {
        TwiceInMultiset(labels, i, j);
        OnceInMultiset(t.order, labels[i]);
      }
    }
    SortedDistinctStrict(labels);
  }

  lemma {:induction false} OnceInMultiset(s: seq<string>, x: string)
    requires NoDuplicates(s)
    ensures multiset(s)[x] <= 1
  {
    if s != [] {
      var init := s[..|s| - 1];
      assert s == init + [s[|s| - 1]];
      OnceInMultiset(init, x);
      if x == s[|s| - 1] {
        assert x !in init;
      }
    }
  }
}
