/**
 * Arithmetic on vectors of mass fractions, in exact real arithmetic:
 * the left-to-right sum that the integrator's loops accumulate, division
 * of every entry by one number, and proportional renormalisation.
 */
module Species {

  /** The sum of `s`, accumulated from the first entry to the last. */
  function Sum(s: seq<real>): (r: real)
    ensures (forall i :: 0 <= i < |s| ==> 0.0 <= s[i]) ==> 0.0 <= r
  {
    if s == [] then 0.0 else Sum(s[..|s| - 1]) + s[|s| - 1]
  }

  /** Every entry of `s` divided by `c`. */
  function Divided(s: seq<real>, c: real): (r: seq<real>)
    requires c != 0.0
    ensures |r| == |s|
    ensures forall i :: 0 <= i < |r| ==> r[i] * c == s[i]
  {
    seq(|s|, i requires 0 <= i < |s| => s[i] / c)
  }

  /** Dividing every entry by `c` divides the sum by `c`. */
  lemma {:induction false} SumDivided(s: seq<real>, c: real)
    requires c != 0.0
    ensures Sum(Divided(s, c)) == Sum(s) / c
  {
    if s != [] {
      var k := |s| - 1;
      var d := Divided(s, c);
      assert d[..k] == Divided(s[..k], c);
      SumDivided(s[..k], c);
      var a, x := Sum(s[..k]), s[k];
      assert Sum(d) == Sum(d[..k]) + d[k];
      assert Sum(d[..k]) == a / c;
      assert d[k] == x / c;
      assert Sum(s) == a + x;
      DivisionDistributes(a, x, c);
    }
  }

  lemma DivisionDistributes(a: real, x: real, c: real)
    requires c != 0.0
    ensures a / c + x / c == (a + x) / c
  {
  }

  /**
   * Proportional renormalisation: every entry divided by the sum of all
   * entries. The result sums to one.
   */
  function Renormalized(s: seq<real>): (r: seq<real>)
    requires Sum(s) != 0.0
    ensures |r| == |s|
    ensures forall i :: 0 <= i < |r| ==> r[i] * Sum(s) == s[i]
    ensures Sum(r) == 1.0
  {
    SumDivided(s, Sum(s));
    SelfQuotient(Sum(s));
    Divided(s, Sum(s))
  }

  /** A vector whose entries are all at least `lo` sums to at least `|s| * lo`. */
  lemma {:induction false} SumAtLeast(s: seq<real>, lo: real)
    requires forall i :: 0 <= i < |s| ==> lo <= s[i]
    ensures (|s| as real) * lo <= Sum(s)
  {
    if s != [] {
      var k := |s| - 1;
      SumAtLeast(s[..k], lo);
      assert s[k] >= lo;
    }
  }

  /** In a vector of non-negative entries no entry exceeds the sum. */
  lemma {:induction false} EntryAtMostSum(s: seq<real>, j: int)
    requires forall i :: 0 <= i < |s| ==> 0.0 <= s[i]
    requires 0 <= j < |s|
    ensures s[j] <= Sum(s)
  {
    var k := |s| - 1;
    SumAtLeast(s[..k], 0.0);
    if j < k {
      EntryAtMostSum(s[..k], j);
    }
  }

  /** The sum of three entries, spelled out. */
  lemma SumOfThree(a: real, b: real, c: real)
    ensures Sum([a, b, c]) == a + b + c
  {
    assert [a, b, c][..2] == [a, b];
    assert [a, b][..1] == [a];
    assert [a][..0] == [];
    assert Sum([a]) == a;
    assert Sum([a, b]) == a + b;
  }

  lemma SelfQuotient(a: real)
    requires a != 0.0
    ensures a / a == 1.0
  {
  }

  /** A positive number divided by one at least as large lies in (0, 1]. */
  lemma QuotientInUnit(a: real, b: real)
    requires 0.0 < a <= b
    ensures 0.0 < a / b <= 1.0
  {
  }
}
