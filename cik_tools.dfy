/**
 * Ticker-to-CIK resolution: the lookup response is searched with the
 * pattern `.*CIK=(\d{10}).*`, and the lookup succeeds only when exactly one
 * distinct CIK is found. The regex is written out as a backtracking
 * recogniser: `.` does not cross a line break and the leading `.*` is
 * greedy, so each line yields at most one match, its last `CIK=` with ten
 * digits.
 */
module CikTools {
  import opened Wrappers
  import opened Text
  import opened Http

  /** `RequestException('Request failed')`, `LookupError('Unique CIK match not found')`, `LookupError('CIK match not found')`. */
  datatype CikError = RequestFailed | NotUnique | NotFound

  const CikTag: string := "CIK="

  /** `CIK=` followed by ten digits at `c`. */
  predicate CikAt(s: string, c: int) {
    0 <= c && OccursAt(s, CikTag, c) && DigitsAt(s, c + 4, 10)
  }

  /** The ten digits of the CIK at `c`. */
  function CikDigits(s: string, c: nat): string
    requires CikAt(s, c)
  {
    s[c + 4..c + 14]
  }

  /**
   * The greedy `.*` started at `p` giving back characters from `c`
   * down: the largest position in `[p, c]` with a CIK there.
   */
  function LastCikFrom(s: string, p: nat, c: int): (r: Option<nat>)
    ensures r.Some? ==> p <= r.value <= c && CikAt(s, r.value)
    ensures r.Some? ==> forall k :: r.value < k <= c ==> !CikAt(s, k)
    ensures r.None? ==> forall k :: p <= k <= c ==> !CikAt(s, k)
    decreases c - p + 1
  {
    if c < p then None
    else if CikAt(s, c) then Some(c)
    else LastCikFrom(s, p, c - 1)
  }

  /** A CIK never starts on a line break. */
  lemma CikNotAtBreak(s: string, c: int)
    requires 0 <= c < |s| && s[c] == '\n'
    ensures !CikAt(s, c)
  {
  }

  /** A CIK found on a line starts before the line's end. */
  lemma CikBeforeLineEnd(s: string, p: nat, c: nat)
    requires p <= |s| && CikAt(s, c) && p <= c <= LineEnd(s, p)
    ensures c < LineEnd(s, p)
  {
    if c == LineEnd(s, p) {
      CikNotAtBreak(s, c);
    }
  }

  /** `ticker_regex.findall(s[p..])`: the CIK group of each match, in order. */
  function CikFindAll(s: string, p: nat): seq<string>
    requires p <= |s|
    decreases |s| - p
  {
    if p == |s| then []
    else
      var e := LineEnd(s, p);
      match LastCikFrom(s, p, e)
      case Some(c) =>
        CikBeforeLineEnd(s, p, c);
        [CikDigits(s, c)] + CikFindAll(s, e)
      case None => CikFindAll(s, p + 1)
  }

  /** `ticker_regex.findall(string=body)`. */
  function CikMatches(body: string): seq<string>
  {
    CikFindAll(body, 0)
  }

  /** The match one line contributes: its last `CIK=` with ten digits, or nothing. */
  function LineCik(line: string): seq<string>
  {
    match LastCikFrom(line, 0, |line|)
    case Some(c) => [CikDigits(line, c)]
    case None => []
  }

  // ---------------------------------------------------------------- matches line by line

  /** `LineEnd` does not move while the scan is inside a line. */
  lemma LineEndStep(s: string, p: nat)
    requires p < |s| && s[p] != '\n'
    ensures LineEnd(s, p) == LineEnd(s, p + 1)
  {
  }

  /**
   * Scanning from `p` inside a line: the line's last CIK (if any), then
   * the matches after the line break.
   */
  lemma {:induction false} LineScan(s: string, p: nat)
    requires p <= |s|
    ensures var e := LineEnd(s, p);
      CikFindAll(s, p) ==
        (match LastCikFrom(s, p, e) case Some(c) => [CikDigits(s, c)] case None => [])
        + (if e < |s| then CikFindAll(s, e + 1) else [])
    decreases |s| - p
  {
    var e := LineEnd(s, p);
    if p < |s| {
      match LastCikFrom(s, p, e)
      case Some(c) =>
        if e < |s| {
          assert LineEnd(s, e) == e;
          CikNotAtBreak(s, e);
          assert LastCikFrom(s, e, e).None?;
        }
      case None =>
        if p < e {
          LineEndStep(s, p);
          assert LastCikFrom(s, p + 1, e).None?;
          LineScan(s, p + 1);
        }
    }
  }

  /** Inside the first line, a CIK of `s` is a CIK of the line and back. */
  lemma CikAtPrefix(s: string, k: nat, c: nat)
    requires k <= |s| && (k < |s| ==> s[k] == '\n') && c <= k
    ensures CikAt(s, c) == CikAt(s[..k], c)
  {
    if CikAt(s, c) {
      assert s[..k][c..c + 4] == s[c..c + 4];
    }
    if CikAt(s[..k], c) {
      assert s[..k][c..c + 4] == s[c..c + 4];
    }
  }

  /** The greedy choice over `[p, c]` is the same in `s` and in its first line `s[..k]`. */
  lemma {:induction false} LastCikPrefix(s: string, k: nat, p: nat, c: int)
    requires k <= |s| && (k < |s| ==> s[k] == '\n') && c <= k
    ensures LastCikFrom(s, p, c) == LastCikFrom(s[..k], p, c)
    decreases c - p + 1
  {
    if c >= p {
      CikAtPrefix(s, k, c);
      if !CikAt(s, c) {
        LastCikPrefix(s, k, p, c - 1);
      }
    }
  }

  /** The first line of `s`, up to the line break at `k`, holds the same last CIK as `s` does there. */
  lemma FirstLineCiks(s: string, k: nat)
    requires k <= |s| && (k < |s| ==> s[k] == '\n')
    ensures LastCikFrom(s, 0, k) == LastCikFrom(s[..k], 0, k)
    ensures LastCikFrom(s, 0, k).Some? ==>
      CikDigits(s, LastCikFrom(s, 0, k).value) == CikDigits(s[..k], LastCikFrom(s, 0, k).value)
  {
    LastCikPrefix(s, k, 0, k);
  }

  /** A CIK of `s` at `c` is a CIK of `s[d..]` at `c - d` and back. */
  lemma CikAtSuffix(s: string, d: nat, c: nat)
    requires d <= c && d <= |s|
    ensures CikAt(s, c) == CikAt(s[d..], c - d)
  {
    if CikAt(s, c) {
      assert s[d..][c - d..c - d + 4] == s[c..c + 4];
    }
    if CikAt(s[d..], c - d) {
      assert s[d..][c - d..c - d + 4] == s[c..c + 4];
    }
  }

  lemma {:induction false} LastCikShift(s: string, d: nat, p: nat, c: int)
    requires d <= p && d <= |s|
    ensures LastCikFrom(s[d..], p - d, c - d) ==
      (match LastCikFrom(s, p, c) case Some(k) => Some(k - d) case None => None)
    decreases c - p + 1
  {
    if c >= p {
      CikAtSuffix(s, d, c);
      if !CikAt(s, c) {
        LastCikShift(s, d, p, c - 1);
      }
    }
  }

  lemma {:induction false} LineEndSuffix(s: string, d: nat, p: nat)
    requires d <= p <= |s|
    ensures LineEnd(s[d..], p - d) == LineEnd(s, p) - d
    decreases |s| - p
  {
    if p < |s| && s[p] != '\n' {
      LineEndSuffix(s, d, p + 1);
    }
  }

  /** A scan only looks at what lies ahead of it: scanning `s` from `p` is scanning `s[d..]` from `p - d`. */
  lemma {:induction false} ScanSuffix(s: string, d: nat, p: nat)
    requires d <= p <= |s|
    ensures CikFindAll(s, p) == CikFindAll(s[d..], p - d)
    decreases |s| - p
  {
    if p < |s| {
      var t := s[d..];
      var e := LineEnd(s, p);
      assert LineEnd(t, p - d) == e - d by {
        LineEndSuffix(s, d, p);
      }
      match LastCikFrom(s, p, e)
      case Some(c) =>
        CikBeforeLineEnd(s, p, c);
        assert LastCikFrom(t, p - d, e - d) == Some(c - d) by {
          LastCikShift(s, d, p, e);
        }
        assert CikDigits(t, c - d) == CikDigits(s, c);
        ScanSuffix(s, d, e);
      case None =>
        assert LastCikFrom(t, p - d, e - d) == None by {
          LastCikShift(s, d, p, e);
        }
        ScanSuffix(s, d, p + 1);
    }
  }

  /** The first line break of `s` is where the first line ends. */
  lemma LineEndIsIndexOf(s: string)
    ensures LineEnd(s, 0) == if '\n' in s then IndexOf(s, '\n') else |s|
  {
    var e := LineEnd(s, 0);
    var r := IndexOf(s, '\n');
    if e < |s| {
      assert s[e] in s;
      assert forall j :: 0 <= j < r ==> s[..r][j] == s[j];
    }
  }

  /**
   * `findall` over the whole body yields, line by line, each line's last
   * `CIK=` with ten digits: at most one match per line, in line order.
   */
  lemma {:induction false} MatchesByLine(s: string)
    ensures CikMatches(s) == Concat(MapSeq(LineCik, Split(s, '\n')))
    decreases |s|
  {
    var k := IndexOf(s, '\n');
    LineEndIsIndexOf(s);
    LineScan(s, 0);
    if k < 0 {
      FirstLineCiks(s, |s|);
      assert s[..|s|] == s;
      assert Split(s, '\n') == [s];
      MapSeqCons(LineCik, s, []);
      assert Concat([LineCik(s)]) == LineCik(s) + Concat([]);
    } else {
      FirstLineCiks(s, k);
      var rest := s[k + 1..];
      ScanSuffix(s, k + 1, k + 1);
      assert CikFindAll(s, k + 1) == CikMatches(rest);
      MatchesByLine(rest);
      assert Split(s, '\n') == [s[..k]] + Split(rest, '\n');
      MapSeqCons(LineCik, s[..k], Split(rest, '\n'));
    }
  }

  /** `m` is ten digits that follow `CIK=` somewhere in `s`. */
  ghost predicate CikOf(s: string, m: string) {
    |m| == 10 && AllDigits(m) && exists c :: OccursAt(s, CikTag + m, c)
  }

  /** Every match of `ticker_regex` is ten digits that follow `CIK=` somewhere in the body. */
  lemma {:induction false} MatchesAreCiks(s: string, p: nat)
    requires p <= |s|
    ensures forall m :: m in CikFindAll(s, p) ==> CikOf(s, m)
    decreases |s| - p
  {
    if p < |s| {
      var e := LineEnd(s, p);
      match LastCikFrom(s, p, e)
      case Some(c) =>
        CikBeforeLineEnd(s, p, c);
        MatchesAreCiks(s, e);
        var m := CikDigits(s, c);
        assert forall j :: 0 <= j < 10 ==> m[j] == s[c + 4 + j];
        assert s[c..c + 14] == s[c..c + 4] + m;
        assert OccursAt(s, CikTag + m, c);
      case None =>
        MatchesAreCiks(s, p + 1);
    }
  }

  // ---------------------------------------------------------------- uniqueness

  /** `set(matches)`. */
  function Distinct(xs: seq<string>): set<string>
  {
    set x | x in xs
  }

  /** No distinct value: no match at all; one: every match is the first. */
  lemma DistinctCount(xs: seq<string>)
    ensures |Distinct(xs)| == 0 <==> xs == []
    ensures |Distinct(xs)| == 1 <==> (xs != [] && forall k :: 0 <= k < |xs| ==> xs[k] == xs[0])
  {
    if xs != [] {
      assert xs[0] in Distinct(xs);
      if forall k :: 0 <= k < |xs| ==> xs[k] == xs[0] {
        assert Distinct(xs) == {xs[0]};
      } else {
        var k :| 0 <= k < |xs| && xs[k] != xs[0];
        var two := {xs[0], xs[k]};
        assert Distinct(xs) == two + (Distinct(xs) - two);
        assert |two| == 2;
      }
    }
  }

  /**
   * The decision after the request: a failed request raises; otherwise
   * several distinct CIKs or none raise `LookupError`, and a single
   * distinct CIK, however often it occurs, is the answer.
   */
  function ResolveCik(ok: bool, body: string): (r: Result<string, CikError>)
    ensures !ok ==> r == Err(RequestFailed)
    ensures ok ==> var ms := CikMatches(body);
      && (ms == [] ==> r == Err(NotFound))
      && ((exists k :: 0 <= k < |ms| && ms[k] != ms[0]) ==> r == Err(NotUnique))
      && (r.Ok? <==> ms != [] && forall k :: 0 <= k < |ms| ==> ms[k] == ms[0])
      && (r.Ok? ==> r.value == ms[0])
    ensures r.Ok? ==> CikOf(body, r.value)
  {
    if !ok then Err(RequestFailed)
    else
      var matches := CikMatches(body);
      DistinctCount(matches);
      var matchesSetLen := |Distinct(matches)|;
      if matchesSetLen > 1 then Err(NotUnique)
      else if matchesSetLen == 0 then Err(NotFound)
      else
        MatchesAreCiks(body, 0);
        assert matches[0] in matches;
        Ok(matches[0])
  }

  // ---------------------------------------------------------------- the lookup request

  /** The parameter names of a lookup request, in the order they are sent. */
  const LookupKeys: seq<string> := ["CIK", "Find", "owner", "action"]

  function LookupQuery(ticker: string): Query
  {
    [("CIK", Str(ticker)), ("Find", Str("Search")), ("owner", Str("exclude")), ("action", Str("getcompany"))]
  }

  /** A lookup request carries exactly the four keys in their fixed order, the ticker under `CIK`. */
  lemma LookupQueryShape(ticker: string)
    ensures Keys(LookupQuery(ticker)) == LookupKeys
    ensures LookupQuery(ticker)[0].1 == Str(ticker)
  {
    var q := LookupQuery(ticker);
    assert forall k :: 0 <= k < 4 ==> Keys(q)[k] == LookupKeys[k];
  }

  /** `getCIK`: one lookup request, then the decision on its response. */
  function GetCik(ticker: string, server: Query -> Response): (r: Result<string, CikError>)
    ensures r == Err(RequestFailed) <==> !server(LookupQuery(ticker)).ok
    ensures r.Ok? ==> CikOf(server(LookupQuery(ticker)).text, r.value)
  {
    var response := server(LookupQuery(ticker));
    ResolveCik(response.ok, response.text)
  }
}
