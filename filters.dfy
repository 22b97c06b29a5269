/** The selectors of the marketing dashboard: the option lists built by
    `populateFilters` and the three-way filter of `applyFilters`. */
module Filters {
  import opened Text
  import opened Csv
  import opened Segmentation

  /** The selector value that puts no constraint on its field. */
  const All: string := "all"

  /** The values of the country, education and segment selectors. */
  datatype Selection = Selection(country: string, education: string, segment: string)

  const NoConstraint: Selection := Selection(All, All, All)

  /** `sel === 'all' || customer[field] === sel`: strict equality, so a
      customer without the field never matches a specific value. */
  predicate FieldMatches(r: Record, field: string, sel: string) {
    sel == All || (field in r && r[field] == Str(sel))
  }

  /** The predicate of `rawData.filter` in `applyFilters`. */
  predicate Matches(r: Record, sel: Selection)
    ensures sel == NoConstraint ==> Matches(r, sel)
    ensures Matches(r, sel) ==>
      && (sel.country == All || FieldText(r, "Country") == sel.country)
      && (sel.education == All || FieldText(r, "Education") == sel.education)
      && (sel.segment == All || FieldText(r, "Segment") == sel.segment)
  {
    && FieldMatches(r, "Country", sel.country)
    && FieldMatches(r, "Education", sel.education)
    && FieldMatches(r, "Segment", sel.segment)
  }

  // ----- Array.prototype.filter -----

  /** The records that satisfy `p`, in their original order. */
  function Keep(rs: seq<Record>, p: Record -> bool): (out: seq<Record>)
    ensures |out| <= |rs|
  {
    if rs == [] then []
    else (if p(rs[0]) then [rs[0]] else []) + Keep(rs[1..], p)
  }

  /** Each record that satisfies `p` occurs in the result as often as in
      `rs`, the others not at all. */
  lemma {:induction false} KeepCount(rs: seq<Record>, p: Record -> bool)
    ensures forall r :: multiset(Keep(rs, p))[r] == if p(r) then multiset(rs)[r] else 0
  {
    if rs != [] {
      KeepCount(rs[1..], p);
      assert rs == [rs[0]] + rs[1..];
    }
  }

  /** `a` is `b` with some elements left out and the rest in the same order. */
  predicate Subsequence(a: seq<Record>, b: seq<Record>) {
    a == [] || (b != [] && ((a[0] == b[0] && Subsequence(a[1..], b[1..])) || Subsequence(a, b[1..])))
  }

  lemma {:induction false} KeepSubsequence(rs: seq<Record>, p: Record -> bool)
    ensures Subsequence(Keep(rs, p), rs)
  {
    if rs != [] {
      KeepSubsequence(rs[1..], p);
      var k := Keep(rs[1..], p);
      if p(rs[0]) {
        assert Keep(rs, p) == [rs[0]] + k;
        assert Keep(rs, p)[1..] == k;
      } else {
        assert Keep(rs, p) == k;
      }
    }
  }

  /** What `filter` keeps comes from its input and passes the test. */
  lemma KeepMembers(rs: seq<Record>, p: Record -> bool)
    ensures forall r :: r in Keep(rs, p) ==> r in rs && p(r)
  {
    KeepCount(rs, p);
    forall r | r in Keep(rs, p) ensures r in rs && p(r) {
      assert multiset(Keep(rs, p))[r] > 0;
    }
  }

  /** A test every element of the list passes keeps the whole list. */
  lemma {:induction false} KeepAllIn(rs: seq<Record>, p: Record -> bool)
    ensures (forall r :: r in rs ==> p(r)) ==> Keep(rs, p) == rs
  {
    if rs != [] && forall r :: r in rs ==> p(r) {
      KeepAllIn(rs[1..], p);
      assert rs[0] in rs;
      assert forall r :: r in rs[1..] ==> r in rs;
    }
  }

  /** A test no element of the list passes keeps nothing. */
  lemma {:induction false} KeepNoneIn(rs: seq<Record>, p: Record -> bool)
    ensures (forall r :: r in rs ==> !p(r)) ==> Keep(rs, p) == []
  {
    if rs != [] && forall r :: r in rs ==> !p(r) {
      KeepNoneIn(rs[1..], p);
      assert rs[0] in rs;
      assert forall r :: r in rs[1..] ==> r in rs;
    }
  }

  lemma {:induction false} KeepKeep(rs: seq<Record>, p: Record -> bool, q: Record -> bool, pq: Record -> bool)
    requires forall r :: pq(r) == (p(r) && q(r))
    ensures Keep(Keep(rs, p), q) == Keep(rs, pq)
  {
    if rs != [] {
      KeepKeep(rs[1..], p, q, pq);
      var k := Keep(rs[1..], p);
      if p(rs[0]) {
        assert Keep(rs, p) == [rs[0]] + k;
        assert Keep(rs, p)[1..] == k;
        assert Keep(Keep(rs, p), q) == (if q(rs[0]) then [rs[0]] else []) + Keep(k, q);
      } else {
        assert Keep(rs, p) == k;
      }
    }
  }

  // ----- applyFilters -----

  /** `applyFilters`: the customers matching every selector that is not
      `'all'`. */
  function FilterRecords(rs: seq<Record>, sel: Selection): (out: seq<Record>)
    ensures |out| <= |rs|
    ensures forall r :: r in out ==> r in rs && Matches(r, sel)
  {
    KeepMembers(rs, r => Matches(r, sel));
    Keep(rs, r => Matches(r, sel))
  }

  /** The result is the order-preserving subsequence of the customers that
      match: each matching customer kept (as often as it occurs), every
      other one dropped, and every kept one matching all active selectors. */
  lemma FilterSpec(rs: seq<Record>, sel: Selection)
    ensures Subsequence(FilterRecords(rs, sel), rs)
    ensures forall r :: multiset(FilterRecords(rs, sel))[r] == if Matches(r, sel) then multiset(rs)[r] else 0
    ensures forall r :: r in FilterRecords(rs, sel) ==> r in rs && Matches(r, sel)
  {
    KeepSubsequence(rs, r => Matches(r, sel));
    KeepCount(rs, r => Matches(r, sel));
  }

  /** With all three selectors on `'all'` nothing is filtered out: the result
      is the copy that `resetFilters` assigns. */
  lemma FilterNoConstraint(rs: seq<Record>)
    ensures FilterRecords(rs, NoConstraint) == rs
  {
    KeepAllIn(rs, r => Matches(r, NoConstraint));
  }

  /** Filtering the filtered list again with the same selectors changes
      nothing. */
  lemma FilterIdempotent(rs: seq<Record>, sel: Selection)
    ensures FilterRecords(FilterRecords(rs, sel), sel) == FilterRecords(rs, sel)
  {
    var p := (r: Record) => Matches(r, sel);
    KeepKeep(rs, p, p, p);
  }

  /** The selector that keeps the customers matching both `a` and `b`,
      when they do not ask for two different values of one field. */
  function Meet(a: string, b: string): string {
    if a == All then b else a
  }

  predicate Compatible(a: Selection, b: Selection) {
    && (a.country == All || b.country == All || a.country == b.country)
    && (a.education == All || b.education == All || a.education == b.education)
    && (a.segment == All || b.segment == All || a.segment == b.segment)
  }

  /** The three selectors constrain independent fields and are combined with
      AND: filtering by `a` and then by `b` is filtering once by both, in
      either order. */
  lemma FilterCompose(rs: seq<Record>, a: Selection, b: Selection)
    requires Compatible(a, b)
    ensures FilterRecords(FilterRecords(rs, a), b)
         == FilterRecords(rs, Selection(Meet(a.country, b.country), Meet(a.education, b.education), Meet(a.segment, b.segment)))
    ensures FilterRecords(FilterRecords(rs, a), b) == FilterRecords(FilterRecords(rs, b), a)
  {
    var m := Selection(Meet(a.country, b.country), Meet(a.education, b.education), Meet(a.segment, b.segment));
    var pa := (r: Record) => Matches(r, a);
    var pb := (r: Record) => Matches(r, b);
    var pm := (r: Record) => Matches(r, m);
    KeepKeep(rs, pa, pb, pm);
    KeepKeep(rs, pb, pa, pm);
  }

  /** The country, education and segment selectors applied one at a time, in
      any order, give the same customers as `applyFilters`. */
  lemma FilterOneFieldAtATime(rs: seq<Record>, sel: Selection)
    ensures FilterRecords(FilterRecords(FilterRecords(rs, Selection(sel.country, All, All)),
              Selection(All, sel.education, All)), Selection(All, All, sel.segment))
         == FilterRecords(rs, sel)
  {
    var c := Selection(sel.country, All, All);
    var e := Selection(All, sel.education, All);
    var s := Selection(All, All, sel.segment);
    FilterCompose(rs, c, e);
    var ce := Selection(sel.country, sel.education, All);
    assert Selection(Meet(c.country, e.country), Meet(c.education, e.education), Meet(c.segment, e.segment)) == ce;
    FilterCompose(rs, ce, s);
    assert Selection(Meet(ce.country, s.country), Meet(ce.education, s.education), Meet(ce.segment, s.segment)) == sel;
  }

  // ----- populateFilters -----

  /** The text of a field, `""` when the customer has none (the value that
      `.filter(Boolean)` drops alongside `undefined`). */
  function FieldText(r: Record, field: string): string {
    if field in r && r[field].Str? then r[field].s else ""
  }

  function FieldTexts(rs: seq<Record>, field: string): (ts: seq<string>)
    ensures |ts| == |rs|
  {
    seq(|rs|, i requires 0 <= i < |rs| => FieldText(rs[i], field))
  }

  /** `[...new Set(xs)]`: each string once, at its first occurrence. */
  function Distinct(xs: seq<string>): (ds: seq<string>)
    ensures forall x :: multiset(ds)[x] == if x in xs then 1 else 0
  {
    if xs == [] then []
    else
      var init := xs[..|xs| - 1];
      var last := xs[|xs| - 1];
      assert xs == init + [last];
      var d := Distinct(init);
      if last in d then d else d + [last]
  }

  /** `.filter(Boolean)` on strings: the empty ones are dropped. */
  function NonEmpty(xs: seq<string>): (ys: seq<string>)
    ensures forall x :: multiset(ys)[x] == if x == "" then 0 else multiset(xs)[x]
  {
    if xs == [] then []
    else
      assert xs == [xs[0]] + xs[1..];
      (if xs[0] == "" then [] else [xs[0]]) + NonEmpty(xs[1..])
  }

  /** The options `populateFilters` offers for a field (after `'all'`): the
      distinct non-empty values found in the data, sorted. */
  function SelectorOptions(rs: seq<Record>, field: string): (opts: seq<string>)
    ensures Sorted(opts)
    ensures "" !in opts
  {
    var opts := SortStrings(NonEmpty(Distinct(FieldTexts(rs, field))));
    assert multiset(opts)[""] == 0;
    opts
  }

  lemma OptionsCount(rs: seq<Record>, field: string)
    ensures forall x :: multiset(SelectorOptions(rs, field))[x] ==
              if x != "" && x in FieldTexts(rs, field) then 1 else 0
  {
  }

  lemma InFieldTexts(rs: seq<Record>, field: string, x: string)
    ensures x in FieldTexts(rs, field) <==> exists r :: r in rs && FieldText(r, field) == x
  {
    var ts := FieldTexts(rs, field);
    if x in ts {
      var i :| 0 <= i < |ts| && ts[i] == x;
      assert rs[i] in rs;
    }
    if exists r :: r in rs && FieldText(r, field) == x {
      var r :| r in rs && FieldText(r, field) == x;
      var i :| 0 <= i < |rs| && rs[i] == r;
      assert ts[i] == x;
    }
  }

  /** The options are exactly the non-empty values some customer has, each
      listed once, in strictly ascending order. */
  lemma SelectorOptionsSpec(rs: seq<Record>, field: string)
    ensures forall x :: x in SelectorOptions(rs, field) <==> x != "" && exists r :: r in rs && FieldText(r, field) == x
    ensures forall i, j :: 0 <= i < j < |SelectorOptions(rs, field)| ==>
              Less(SelectorOptions(rs, field)[i], SelectorOptions(rs, field)[j])
  {
    var opts := SelectorOptions(rs, field);
    OptionsCount(rs, field);
    forall x ensures x in opts <==> x != "" && exists r :: r in rs && FieldText(r, field) == x {
      InFieldTexts(rs, field, x);
      assert x in opts <==> multiset(opts)[x] > 0;
    }
    forall i, j | 0 <= i < j < |opts| ensures opts[i] != opts[j] {
      if opts[i] == opts[j] {
        TwiceInMultiset(opts, i, j);
      }
    }
    SortedDistinctStrict(opts);
  }

  lemma TwiceInMultiset(s: seq<string>, i: int, j: int)
    requires 0 <= i < j < |s| && s[i] == s[j]
    ensures multiset(s)[s[i]] >= 2
  {
    assert s == s[..i] + [s[i]] + s[i + 1..j] + [s[j]] + s[j + 1..];
  }

  /** The fixed options of the segment selector, highest tier first. */
  const SegmentOptions: seq<string> := [Label(Premium), Label(HighValue), Label(MediumValue), Label(LowValue)]
}
