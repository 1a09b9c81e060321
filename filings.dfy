/**
 * The type filter over a company's filing records: `getFilingByType` keeps,
 * in their original order, the filings whose `type` field contains the
 * requested type as a substring; `get10K` and `get10Q` are the filter for
 * `10-K` and `10-Q`. The list of all filings is taken as an input.
 */
module Filings {
  import opened Wrappers
  import opened Text
  import opened FilingsParser

  /** The KeyError raised by `filing['type']` on a record without that field. */
  datatype FilterError = TypeFieldMissing

  /** Every filing has a `type` field. */
  predicate AllTyped(filings: seq<Filing>) {
    forall i :: 0 <= i < |filings| ==> "type" in filings[i]
  }

  /** `filing_type in filing['type']`. */
  predicate OfType(f: Filing, filingType: string)
    requires "type" in f
  {
    Contains(f["type"], filingType)
  }

  /** The filings of type `filingType`, in input order. */
  function Matching(filings: seq<Filing>, filingType: string): (r: seq<Filing>)
    requires AllTyped(filings)
    ensures |r| <= |filings| && AllTyped(r)
  {
    if filings == [] then []
    else
      var n := |filings| - 1;
      var last := filings[n];
      assert forall i :: 0 <= i < n ==> filings[..n][i] == filings[i];
      Matching(filings[..n], filingType) + (if OfType(last, filingType) then [last] else [])
  }

  /**
   * `getFilingByType`: a KeyError on the first filing without a `type`,
   * otherwise the matching filings in input order.
   */
  method GetFilingByType(filings: seq<Filing>, filingType: string) returns (r: Result<seq<Filing>, FilterError>)
    ensures r.Err? <==> !AllTyped(filings)
    ensures r.Ok? ==> AllTyped(filings) && r.value == Matching(filings, filingType)
  {
    var targetFilings: seq<Filing> := [];
    for i := 0 to |filings|
      invariant AllTyped(filings[..i])
      invariant targetFilings == Matching(filings[..i], filingType)
    {
      var filing := filings[i];
      if "type" !in filing {
        return Err(TypeFieldMissing);
      }
      assert filings[..i + 1][..i] == filings[..i];
      if Contains(filing["type"], filingType) {
        targetFilings := targetFilings + [filing];
      }
    }
    assert filings[..|filings|] == filings;
    return Ok(targetFilings);
  }

  const TenK: string := "10-K"
  const TenQ: string := "10-Q"

  /** `get10K`: the filter for `10-K`. */
  method Get10K(filings: seq<Filing>) returns (r: Result<seq<Filing>, FilterError>)
    ensures r.Err? <==> !AllTyped(filings)
    ensures r.Ok? ==> AllTyped(filings) && r.value == Matching(filings, TenK)
  {
    r := GetFilingByType(filings, TenK);
  }

  /** `get10Q`: the filter for `10-Q`. */
  method Get10Q(filings: seq<Filing>) returns (r: Result<seq<Filing>, FilterError>)
    ensures r.Err? <==> !AllTyped(filings)
    ensures r.Ok? ==> AllTyped(filings) && r.value == Matching(filings, TenQ)
  {
    r := GetFilingByType(filings, TenQ);
  }

  // ---------------------------------------------------------------- properties

  /** A filing is kept exactly when it is among the input and its type contains the requested one. */
  lemma {:induction false} MatchingMembers(filings: seq<Filing>, filingType: string, f: Filing)
    requires AllTyped(filings)
    ensures f in Matching(filings, filingType) <==> f in filings && OfType(f, filingType)
    decreases |filings|
  {
    if filings != [] {
      var n := |filings| - 1;
      assert forall i :: 0 <= i < n ==> filings[..n][i] == filings[i];
      MatchingMembers(filings[..n], filingType, f);
      assert filings == filings[..n] + [filings[n]];
    }
  }

  /** `xs` is `ys` with some elements dropped, the rest in their order. */
  predicate IsSubsequence<T(==)>(xs: seq<T>, ys: seq<T>)
    decreases |ys|
  {
    || xs == []
    || (&& ys != []
        && ((xs[|xs| - 1] == ys[|ys| - 1] && IsSubsequence(xs[..|xs| - 1], ys[..|ys| - 1]))
            || IsSubsequence(xs, ys[..|ys| - 1])))
  }

  /** A subsequence is no longer than the sequence it is taken from. */
  lemma {:induction false} SubsequenceLength<T>(xs: seq<T>, ys: seq<T>)
    requires IsSubsequence(xs, ys)
    ensures |xs| <= |ys|
    decreases |ys|
  {
    if xs != [] {
      if xs[|xs| - 1] == ys[|ys| - 1] && IsSubsequence(xs[..|xs| - 1], ys[..|ys| - 1]) {
        SubsequenceLength(xs[..|xs| - 1], ys[..|ys| - 1]);
      } else {
        SubsequenceLength(xs, ys[..|ys| - 1]);
      }
    }
  }

  /** The kept filings appear in the same order as in the input. */
  lemma {:induction false} MatchingOrder(filings: seq<Filing>, filingType: string)
    requires AllTyped(filings)
    ensures IsSubsequence(Matching(filings, filingType), filings)
    decreases |filings|
  {
    if filings != [] {
      var n := |filings| - 1;
      var last := filings[n];
      var init := Matching(filings[..n], filingType);
      assert forall i :: 0 <= i < n ==> filings[..n][i] == filings[i];
      MatchingOrder(filings[..n], filingType);
      if OfType(last, filingType) {
        assert (init + [last])[..|init|] == init;
      } else {
        assert init + [] == init;
      }
    }
  }

  /** Filtering the result again by the same type changes nothing. */
  lemma {:induction false} MatchingIdempotent(filings: seq<Filing>, filingType: string)
    requires AllTyped(filings)
    ensures Matching(Matching(filings, filingType), filingType) == Matching(filings, filingType)
    decreases |filings|
  {
    if filings != [] {
      var n := |filings| - 1;
      var last := filings[n];
      var init := Matching(filings[..n], filingType);
      assert forall i :: 0 <= i < n ==> filings[..n][i] == filings[i];
      MatchingIdempotent(filings[..n], filingType);
      if OfType(last, filingType) {
        var r := init + [last];
        assert r[..|r| - 1] == init && r[|r| - 1] == last;
        assert Matching(r, filingType) == Matching(init, filingType) + [last];
      } else {
        assert init + [] == init;
      }
    }
  }

  /** The empty type is contained in every type, so it keeps every filing. */
  lemma {:induction false} EmptyTypeKeepsAll(filings: seq<Filing>)
    requires AllTyped(filings)
    ensures Matching(filings, "") == filings
    decreases |filings|
  {
    if filings != [] {
      var n := |filings| - 1;
      assert forall i :: 0 <= i < n ==> filings[..n][i] == filings[i];
      EmptyTypeKeepsAll(filings[..n]);
      assert OccursAt(filings[n]["type"], "", 0);
      assert filings[..n] + [filings[n]] == filings;
    }
  }

  /** `10-K` keeps the amended `10-K/A` as well, and drops `10-Q`; `10-Q` keeps `10-Q/A` and drops `10-K`. */
  lemma AmendmentsIncluded(filings: seq<Filing>, f: Filing)
    requires AllTyped(filings) && f in filings
    ensures f["type"] in ["10-K", "10-K/A"] ==> f in Matching(filings, TenK)
    ensures f["type"] in ["10-Q", "10-Q/A"] ==> f in Matching(filings, TenQ)
    ensures f["type"] == "10-Q" ==> f !in Matching(filings, TenK)
    ensures f["type"] == "10-K" ==> f !in Matching(filings, TenQ)
  {
    MatchingMembers(filings, TenK, f);
    MatchingMembers(filings, TenQ, f);
    var t := f["type"];
    if t == "10-K" || t == "10-K/A" {
      assert t[0..4] == TenK;
      assert OccursAt(t, TenK, 0);
    }
    if t == "10-Q" || t == "10-Q/A" {
      assert t[0..4] == TenQ;
      assert OccursAt(t, TenQ, 0);
    }
    if t == "10-Q" {
      assert !OccursAt(t, TenK, 0);
      assert Find(t, TenK) == -1;
    }
    if t == "10-K" {
      assert !OccursAt(t, TenQ, 0);
      assert Find(t, TenQ) == -1;
    }
  }

  /** The parser's records always carry `type`, so filtering them never raises. */
  lemma RecordsTyped(fs: seq<Filing>, es: seq<Entry>)
    requires Records(fs, es)
    ensures AllTyped(fs)
  {
    forall i | 0 <= i < |fs| ensures "type" in fs[i] {
      assert IsRecordOf(fs[i], es[i]);
      assert RequiredFields[1].0 == "type";
    }
  }
}
