/**
 * src/components/network/StatsBar.tsx: the four figures above the contact list: the number of
 * contacts, the number of distinct cities and professions (compared trimmed and lower-cased, blanks
 * ignored) and the average relationship degree.
 */
module StatsBar {
  import opened Wrappers
  import opened Text

  /** The columns the bar selects; a missing degree reads as absent. */
  datatype Row = Row(id: string, city: Option<string>, profession: Option<string>, relationshipDegree: Option<int>)

  /**
   * The distinct non-empty keys of the present values: `new Set(values.map(key).filter(Boolean))`
   * for a key function applied to each present value; there are never more of them than values.
   */
  function DistinctKeys(values: seq<Option<string>>, key: string -> string): (r: set<string>)
    ensures |r| <= |values|
  {
    if values == [] then {}
    else
      var last := values[|values| - 1];
      var front := DistinctKeys(values[..|values| - 1], key);
      if last.Some? && key(last.value) != "" then front + {key(last.value)} else front
  }

  /** Some present value of `values` has key `k`. */
  predicate KeyedTo(values: seq<Option<string>>, key: string -> string, k: string) {
    exists i :: 0 <= i < |values| && values[i].Some? && key(values[i].value) == k
  }

  lemma {:induction false} DistinctKeysMembers(values: seq<Option<string>>, key: string -> string, k: string)
    ensures k in DistinctKeys(values, key) <==> k != "" && KeyedTo(values, key, k)
  {
    if values != [] {
      var init := values[..|values| - 1];
      var last := values[|values| - 1];
      DistinctKeysMembers(init, key, k);
      if KeyedTo(init, key, k) {
        var i :| 0 <= i < |init| && init[i].Some? && key(init[i].value) == k;
        assert values[i] == init[i];
      }
      if KeyedTo(values, key, k) {
        var i :| 0 <= i < |values| && values[i].Some? && key(values[i].value) == k;
        if i < |init| {
          assert init[i] == values[i];
        }
      }
    }
  }

  /** `new Set(values.map(v => v?.trim().toLowerCase()).filter(Boolean))`: the distinct normalised non-blank values. */
  function DistinctValues(values: seq<Option<string>>): (r: set<string>)
    ensures |r| <= |values|
  {
    DistinctKeys(values, Normalize)
  }

  /** A string is counted exactly when it is the non-blank normalised form of some value. */
  lemma DistinctValuesMembers(values: seq<Option<string>>, k: string)
    ensures k in DistinctValues(values) <==>
      k != "" && exists i :: 0 <= i < |values| && values[i].Some? && Normalize(values[i].value) == k
  {
    DistinctKeysMembers(values, Normalize, k);
  }

  /** A value that is blank after trimming, or absent, is not counted. */
  lemma BlankValuesIgnored(values: seq<Option<string>>, blank: Option<string>)
    requires blank.None? || AllSpace(blank.value)
    ensures DistinctValues(values + [blank]) == DistinctValues(values)
  {
    if blank.Some? {
      TrimEmptyIffBlank(blank.value);
      assert Normalize(blank.value) == "";
    }
    assert (values + [blank])[..|values|] == values;
  }

  /** Spellings that differ only in case of ASCII letters and surrounding white space count once. */
  lemma SpellingsCountOnce(values: seq<Option<string>>, a: string, b: string)
    requires Normalize(a) == Normalize(b)
    ensures DistinctValues(values + [Some(a)]) == DistinctValues(values + [Some(a), Some(b)])
  {
    var va := values + [Some(a)];
    var vab := values + [Some(a), Some(b)];
    assert vab[..|vab| - 1] == va;
  }

  function Cities(rows: seq<Row>): (r: seq<Option<string>>)
    ensures |r| == |rows| && forall i :: 0 <= i < |rows| ==> r[i] == rows[i].city
  {
    if rows == [] then [] else [rows[0].city] + Cities(rows[1..])
  }

  function Professions(rows: seq<Row>): (r: seq<Option<string>>)
    ensures |r| == |rows| && forall i :: 0 <= i < |rows| ==> r[i] == rows[i].profession
  {
    if rows == [] then [] else [rows[0].profession] + Professions(rows[1..])
  }

  /** `rows.reduce((a, b) => a + (b.relationship_degree || 0), 0)`. */
  function DegreeSum(rows: seq<Row>): int {
    if rows == [] then 0 else DegreeSum(rows[..|rows| - 1]) + rows[|rows| - 1].relationshipDegree.GetOr(0)
  }

  /** The average as shown before formatting: the literal "0.0" for no rows, otherwise the mean. */
  datatype Average = ZeroLiteral | Mean(value: real)

  function AverageOf(rows: seq<Row>): (r: Average)
    ensures r.ZeroLiteral? <==> rows == []
  {
    if |rows| == 0 then ZeroLiteral else Mean(DegreeSum(rows) as real / |rows| as real)
  }

  /** Degrees on the form's 0 to 10 scale (or missing) keep the average on that scale. */
  lemma AverageOnScale(rows: seq<Row>)
    requires rows != []
    requires forall i :: 0 <= i < |rows| && rows[i].relationshipDegree.Some? ==> 0 <= rows[i].relationshipDegree.value <= 10
    ensures 0.0 <= AverageOf(rows).value <= 10.0
  {
    DegreeSumBounds(rows);
    var n := |rows| as real;
    assert DegreeSum(rows) as real <= n * 10.0;
    DivideBelow(DegreeSum(rows) as real, n * 10.0, n);
    assert (n * 10.0) / n == 10.0;
  }

  lemma DivideBelow(x: real, y: real, n: real)
    requires n > 0.0 && x <= y
    ensures x / n <= y / n
  {
  }

  lemma {:induction false} DegreeSumBounds(rows: seq<Row>)
    requires forall i :: 0 <= i < |rows| && rows[i].relationshipDegree.Some? ==> 0 <= rows[i].relationshipDegree.value <= 10
    ensures 0 <= DegreeSum(rows) <= 10 * |rows|
  {
    if rows != [] {
      DegreeSumBounds(rows[..|rows| - 1]);
    }
  }

  /** The figures the bar shows. */
  datatype Stats = Stats(total: nat, cityCount: nat, professionCount: nat, average: Average)

  /** The bar's figures: the total is the number of rows, and neither distinct count exceeds it. */
  function StatsOf(rows: seq<Row>): (s: Stats)
    ensures s.total == |rows|
    ensures s.cityCount <= s.total && s.professionCount <= s.total
    ensures s.total == 0 ==> s.average == ZeroLiteral && s.cityCount == 0 && s.professionCount == 0
  {
    Stats(|rows|, |DistinctValues(Cities(rows))|, |DistinctValues(Professions(rows))|, AverageOf(rows))
  }
}
