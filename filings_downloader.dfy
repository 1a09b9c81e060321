/**
 * The listing downloader: pages of a company's filing listing are
 * requested at offsets 0, 100, 200, … until a page without the next-page
 * link comes back; each request is sent at most twice. The EDGAR service is
 * an oracle that answers a query on a given attempt.
 */
module FilingsDownloader {
  import opened Wrappers
  import opened Text
  import opened Http

  /** The service: its answer to a query sent for the `attempt`-th time (0 first, 1 for the retry). */
  type Server = (Query, nat) -> Response

  /** `requests.exceptions.RetryError`, raised when the retry also fails. */
  datatype DownloadError = RetryError(cik: string)

  /** Results per page, the most the service allows. */
  const PageSize: nat := 100

  /** Present in a listing page exactly when another page follows. */
  const NextPageText: string := "rel=\"next\" type=\"application/atom+xml\" />"

  /** The parameter names of a listing request, in the order they are sent. */
  const ListingKeys: seq<string> :=
    ["action", "CIK", "type", "dateb", "owner", "start", "count", "output"]

  /** The parameters of the request for `count` results starting at `startIdx`. */
  function ListingQuery(cik: string, startIdx: int, count: int): Query
  {
    [ ("action", Str("getcompany")),
      ("CIK", Str(cik)),
      ("type", Str("")),
      ("dateb", Str("")),
      ("owner", Str("exclude")),
      ("start", Int(startIdx)),
      ("count", Int(count)),
      ("output", Str("atom")) ]
  }

  /**
   * A listing request carries exactly the eight keys in their fixed order,
   * `type` and `dateb` empty, and the offset and count it was asked for;
   * requests for different pages differ.
   */
  lemma ListingQueryShape(cik: string, startIdx: int, count: int)
    ensures var q := ListingQuery(cik, startIdx, count);
      && Keys(q) == ListingKeys
      && q[2].1 == Str("") && q[3].1 == Str("")
      && q[1].1 == Str(cik) && q[5].1 == Int(startIdx) && q[6].1 == Int(count)
    ensures forall s :: s != startIdx ==> ListingQuery(cik, s, count) != ListingQuery(cik, startIdx, count)
  {
    var q := ListingQuery(cik, startIdx, count);
    assert forall k :: 0 <= k < 8 ==> Keys(q)[k] == ListingKeys[k];
    forall s | s != startIdx ensures ListingQuery(cik, s, count) != q {
      assert ListingQuery(cik, s, count)[5] != q[5];
    }
  }

  /** The outcome of one call of the request helper: the first answer that is ok among at most two attempts. */
  function Fetched(server: Server, cik: string, startIdx: int, count: int): Result<string, DownloadError>
  {
    var q := ListingQuery(cik, startIdx, count);
    if server(q, 0).ok then Ok(server(q, 0).text)
    else if server(q, 1).ok then Ok(server(q, 1).text)
    else Err(RetryError(cik))
  }

  /**
   * `__makeRequest`: sends the listing query; a failure on the first
   * attempt is retried once with the same parameters, a failure on the
   * retry raises. `sent` records the queries in the order they are sent.
   */
  method MakeRequest(cik: string, startIdx: int, count: int, retry: bool, server: Server)
    returns (r: Result<string, DownloadError>, ghost sent: seq<Query>)
    ensures var q := ListingQuery(cik, startIdx, count);
      var attempt := if retry then 1 else 0;
      && sent == (if server(q, attempt).ok || retry then [q] else [q, q])
      && (r.Ok? <==> server(q, attempt + |sent| - 1).ok)
      && (r.Ok? ==> r.value == server(q, attempt + |sent| - 1).text)
      && (r.Err? ==> r.error == RetryError(cik))
    ensures !retry ==> r == Fetched(server, cik, startIdx, count)
    decreases if retry then 0 else 1
  {
    var params := ListingQuery(cik, startIdx, count);
    var response := server(params, if retry then 1 else 0);
    if !response.ok && !retry {
      var again;
      ghost var sentAgain;
      again, sentAgain := MakeRequest(cik, startIdx, count, true, server);
      return again, [params] + sentAgain;
    } else if !response.ok {
      return Err(RetryError(cik)), [params];
    }
    return Ok(response.text), [params];
  }

  /** The outcome of requesting page `k`: offset `100 * k`, count 100. */
  function PageAt(server: Server, cik: string, k: nat): Result<string, DownloadError>
  {
    Fetched(server, cik, PageSize * k, PageSize)
  }

  /** Page `k` is fetched and carries the next-page link. */
  predicate Continues(server: Server, cik: string, k: nat) {
    PageAt(server, cik, k).Ok? && Contains(PageAt(server, cik, k).value, NextPageText)
  }

  /** Page `k` is the last one: its request fails or its body has no next-page link. */
  predicate EndsAt(server: Server, cik: string, k: nat) {
    !Continues(server, cik, k)
  }

  /**
   * `pages` is the whole listing: page `k` is the body fetched at offset
   * `100 * k`, every page but the last has the next-page link, the last
   * does not.
   */
  predicate IsListing(server: Server, cik: string, pages: seq<string>) {
    && |pages| >= 1
    && (forall k: nat :: k < |pages| ==> PageAt(server, cik, k) == Ok(pages[k]))
    && (forall k :: 0 <= k < |pages| - 1 ==> Contains(pages[k], NextPageText))
    && !Contains(pages[|pages| - 1], NextPageText)
  }

  /** The download stops at page `m` because the request for it fails after every earlier page continued. */
  predicate FailsAt(server: Server, cik: string, m: nat) {
    && PageAt(server, cik, m).Err?
    && forall k: nat :: k < m ==> Continues(server, cik, k)
  }

  /**
   * `edgarDownload`: the listing pages of `cik`, in fetch order. The loop
   * terminates on a service that ends the listing at some page.
   */
  method EdgarDownload(cik: string, server: Server) returns (r: Result<seq<string>, DownloadError>)
    requires exists n: nat :: EndsAt(server, cik, n)
    ensures r.Ok? ==> IsListing(server, cik, r.value)
    ensures r.Err? ==> r.error == RetryError(cik) && exists m: nat :: FailsAt(server, cik, m)
  {
    var idx := 0;
    var end := false;
    var count := PageSize;
    var pages: seq<string> := [];
    ghost var n: nat :| EndsAt(server, cik, n);
    while !end
      invariant idx == PageSize * |pages|
      invariant forall k: nat :: k < |pages| ==> PageAt(server, cik, k) == Ok(pages[k])
      invariant !end ==> forall k :: 0 <= k < |pages| ==> Contains(pages[k], NextPageText)
      invariant end ==> |pages| >= 1 && !Contains(pages[|pages| - 1], NextPageText)
      invariant end ==> forall k :: 0 <= k < |pages| - 1 ==> Contains(pages[k], NextPageText)
      invariant !end ==> |pages| <= n
      decreases if end then 0 else n + 1 - |pages|
    {
      ghost var sent;
      var pageText;
      pageText, sent := MakeRequest(cik, idx, count, false, server);
      assert pageText == PageAt(server, cik, |pages|);
      if pageText.Err? {
        assert forall k: nat :: k < |pages| ==> Continues(server, cik, k);
        assert FailsAt(server, cik, |pages|);
        return Err(pageText.error);
      }
      end := Find(pageText.value, NextPageText) == -1;
      idx := idx + count;
      pages := pages + [pageText.value];
    }
    return Ok(pages);
  }

  /** The listing is determined by the service: two sequences that both satisfy `IsListing` are equal. */
  lemma ListingUnique(server: Server, cik: string, p1: seq<string>, p2: seq<string>)
    requires IsListing(server, cik, p1) && IsListing(server, cik, p2)
    ensures p1 == p2
  {
    if |p1| == |p2| {
      forall k | 0 <= k < |p1| ensures p1[k] == p2[k] {
        var j: nat := k;
        assert PageAt(server, cik, j) == Ok(p1[j]);
      }
    }
  }

  /** A download either yields the listing or fails, never both: a failing page rules out a listing. */
  lemma ListingOrFailure(server: Server, cik: string, pages: seq<string>, m: nat)
    requires IsListing(server, cik, pages)
    ensures !FailsAt(server, cik, m)
  {
    if m < |pages| {
      assert PageAt(server, cik, m) == Ok(pages[m]);
    } else {
      var k: nat := |pages| - 1;
      assert PageAt(server, cik, k) == Ok(pages[k]);
      assert !Continues(server, cik, k);
    }
  }
}
