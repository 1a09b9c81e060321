/**
 * The listing parser: every `entry` of every listing page becomes a filing
 * record with four required and seven optional fields. The parsed XML is
 * abstracted: an entry is the (tag, text) list of its descendant elements
 * in document order, a page is its list of entries.
 */
module FilingsParser {
  import opened Wrappers
  import opened Text

  /** An `entry` element: (tag name, text) of each descendant element, in document order. */
  type Entry = seq<(string, string)>

  /** A listing page: its `entry` elements, in document order. */
  type Page = seq<Entry>

  /** A filing record: field name to text, as the source's dictionary. */
  type Filing = map<string, string>

  /** The AttributeError raised when a required tag is absent (`None.text`). */
  datatype ParseError = RequiredTagMissing(tag: string)

  /** `entry.find(tag).text`, or `None` when no descendant has that tag. */
  function FindTag(entry: Entry, tag: string): Option<string>
  {
    if entry == [] then None
    else if entry[0].0 == tag then Some(entry[0].1)
    else FindTag(entry[1..], tag)
  }

  /** `find` returns the text of the first descendant with the tag, and nothing only when there is none. */
  lemma {:induction false} FindTagFirst(entry: Entry, tag: string)
    ensures FindTag(entry, tag).None? <==> forall k :: 0 <= k < |entry| ==> entry[k].0 != tag
    ensures FindTag(entry, tag).Some? ==> exists k :: (0 <= k < |entry| && entry[k] == (tag, FindTag(entry, tag).value)
      && forall j :: 0 <= j < k ==> entry[j].0 != tag)
    decreases |entry|
  {
    if entry != [] && entry[0].0 != tag {
      FindTagFirst(entry[1..], tag);
      assert forall k :: 1 <= k < |entry| ==> entry[k] == entry[1..][k - 1];
      if FindTag(entry, tag).Some? {
        var k :| 0 <= k < |entry[1..]| && entry[1..][k] == (tag, FindTag(entry, tag).value)
          && forall j :: 0 <= j < k ==> entry[1..][j].0 != tag;
        assert entry[k + 1] == entry[1..][k];
      }
    }
  }

  /** (field name, tag) of the required fields, in dictionary order; the tag spelling `accession-nunber` is the service's. */
  const RequiredFields: seq<(string, string)> := [
    ("accession-number", "accession-nunber"),
    ("type", "filing-type"),
    ("url", "filing-href"),
    ("date", "filing-date")]

  /** (field name, tag) of the optional fields, in dictionary order. */
  const OptionalFields: seq<(string, string)> := [
    ("act", "act"),
    ("file_number", "file-number"),
    ("file_number_url", "file-number-href"),
    ("film_number", "film-number"),
    ("name", "form-name"),
    ("description", "items-desc"),
    ("size", "size")]

  /** The keys of every filing record. */
  const FieldNames: set<string> := {
    "accession-number", "type", "url", "date",
    "act", "file_number", "file_number_url", "film_number", "name", "description", "size"}

  /** The field names of the first `n` entries of a field table. */
  function NamesUpTo(fields: seq<(string, string)>, n: nat): set<string>
    requires n <= |fields|
  {
    if n == 0 then {} else NamesUpTo(fields, n - 1) + {fields[n - 1].0}
  }

  /** The text of an optional tag: `''` when it is absent. */
  function TextOrEmpty(found: Option<string>): string
  {
    match found
    case Some(text) => text
    case None => ""
  }

  /** `f` is the record built from `e`: exactly the eleven keys, each with its tag's text. */
  predicate IsRecordOf(f: Filing, e: Entry) {
    && f.Keys == FieldNames
    && (forall j :: 0 <= j < |RequiredFields| ==>
          RequiredFields[j].0 in f && FindTag(e, RequiredFields[j].1) == Some(f[RequiredFields[j].0]))
    && (forall j :: 0 <= j < |OptionalFields| ==>
          OptionalFields[j].0 in f && f[OptionalFields[j].0] == TextOrEmpty(FindTag(e, OptionalFields[j].1)))
  }

  /** The first required tag from position `j` on that `e` lacks, in dictionary order. */
  function MissingTagFrom(e: Entry, j: nat): Option<string>
    decreases |RequiredFields| - j
  {
    if j >= |RequiredFields| then None
    else if FindTag(e, RequiredFields[j].1).None? then Some(RequiredFields[j].1)
    else MissingTagFrom(e, j + 1)
  }

  /** The first required tag that `e` lacks, in dictionary order. */
  function MissingTag(e: Entry): Option<string>
  {
    MissingTagFrom(e, 0)
  }

  /** The tag whose absence stops the parse: the first missing required tag of the first incomplete entry. */
  function FirstFailure(es: seq<Entry>): Option<string>
  {
    if es == [] then None
    else if MissingTag(es[0]).Some? then MissingTag(es[0])
    else FirstFailure(es[1..])
  }

  /** `MissingTagFrom` from `j` is nothing exactly when every required tag from `j` on is present, else the first absent one. */
  lemma {:induction false} MissingTagFromMeaning(e: Entry, j: nat)
    requires j <= |RequiredFields|
    ensures MissingTagFrom(e, j).None? <==>
      forall i :: j <= i < |RequiredFields| ==> FindTag(e, RequiredFields[i].1).Some?
    ensures MissingTagFrom(e, j).Some? ==> exists i :: (j <= i < |RequiredFields|
      && MissingTagFrom(e, j).value == RequiredFields[i].1
      && FindTag(e, RequiredFields[i].1).None?
      && forall k :: j <= k < i ==> FindTag(e, RequiredFields[k].1).Some?)
    decreases |RequiredFields| - j
  {
    if j < |RequiredFields| && FindTag(e, RequiredFields[j].1).Some? {
      MissingTagFromMeaning(e, j + 1);
    }
  }

  /** An entry is complete exactly when all four required tags are present; otherwise the reported tag is the first absent one. */
  lemma MissingTagMeaning(e: Entry)
    ensures MissingTag(e).None? <==> forall i :: 0 <= i < |RequiredFields| ==> FindTag(e, RequiredFields[i].1).Some?
    ensures MissingTag(e).Some? ==> exists i :: (0 <= i < |RequiredFields|
      && MissingTag(e).value == RequiredFields[i].1
      && FindTag(e, RequiredFields[i].1).None?
      && forall k :: 0 <= k < i ==> FindTag(e, RequiredFields[k].1).Some?)
  {
    MissingTagFromMeaning(e, 0);
  }

  /** The parse fails exactly when some entry is incomplete, and the tag reported is that of the first incomplete entry. */
  lemma {:induction false} FirstFailureMeaning(es: seq<Entry>)
    ensures FirstFailure(es).None? <==> forall i :: 0 <= i < |es| ==> MissingTag(es[i]).None?
    ensures FirstFailure(es).Some? ==> exists i :: (0 <= i < |es|
      && FirstFailure(es) == MissingTag(es[i])
      && forall k :: 0 <= k < i ==> MissingTag(es[k]).None?)
    decreases |es|
  {
    if es != [] && MissingTag(es[0]).None? {
      FirstFailureMeaning(es[1..]);
      assert forall i :: 1 <= i < |es| ==> es[i] == es[1..][i - 1];
      if FirstFailure(es).Some? {
        var i :| 0 <= i < |es[1..]| && FirstFailure(es[1..]) == MissingTag(es[1..][i])
          && forall k :: 0 <= k < i ==> MissingTag(es[1..][k]).None?;
        assert es[i + 1] == es[1..][i];
      }
    }
  }

  /** One record per entry, in order. */
  predicate Records(fs: seq<Filing>, es: seq<Entry>) {
    |fs| == |es| && forall i :: 0 <= i < |es| ==> IsRecordOf(fs[i], es[i])
  }

  /** The required fields of `f`, read from `e`, for the first `n` of them. */
  predicate HasRequired(f: Filing, e: Entry, n: nat)
    requires n <= |RequiredFields|
  {
    forall j :: 0 <= j < n ==>
      RequiredFields[j].0 in f && FindTag(e, RequiredFields[j].1) == Some(f[RequiredFields[j].0])
  }

  /** The optional fields of `f`, read from `e`, for the first `n` of them. */
  predicate HasOptional(f: Filing, e: Entry, n: nat)
    requires n <= |OptionalFields|
  {
    forall j :: 0 <= j < n ==>
      OptionalFields[j].0 in f && f[OptionalFields[j].0] == TextOrEmpty(FindTag(e, OptionalFields[j].1))
  }

  /** The first loop of the per-entry body: every required tag's text, or the first missing tag. */
  method ReadRequired(filing: Entry) returns (r: Result<Filing, ParseError>)
    ensures r.Ok? <==> MissingTag(filing).None?
    ensures r.Ok? ==> r.value.Keys == NamesUpTo(RequiredFields, |RequiredFields|)
    ensures r.Ok? ==> HasRequired(r.value, filing, |RequiredFields|)
    ensures r.Err? ==> r.error == RequiredTagMissing(MissingTag(filing).value)
  {
    var fParsed: Filing := map[];
    for j := 0 to |RequiredFields|
      invariant fParsed.Keys == NamesUpTo(RequiredFields, j)
      invariant MissingTagFrom(filing, j) == MissingTag(filing)
      invariant HasRequired(fParsed, filing, j)
    {
      var (k, v) := RequiredFields[j];
      var found := FindTag(filing, v);
      if found.None? {
        return Err(RequiredTagMissing(v));
      }
      fParsed := fParsed[k := found.value];
    }
    return Ok(fParsed);
  }

  /** The second loop of the per-entry body: every optional tag's text, `''` when absent. */
  method ReadOptional(filing: Entry, required: Filing) returns (fParsed: Filing)
    requires required.Keys == NamesUpTo(RequiredFields, |RequiredFields|)
    requires HasRequired(required, filing, |RequiredFields|)
    ensures IsRecordOf(fParsed, filing)
  {
    fParsed := required;
    for j := 0 to |OptionalFields|
      invariant fParsed.Keys == NamesUpTo(RequiredFields, |RequiredFields|) + NamesUpTo(OptionalFields, j)
      invariant HasRequired(fParsed, filing, |RequiredFields|)
      invariant HasOptional(fParsed, filing, j)
    {
      var (k, v) := OptionalFields[j];
      var found := FindTag(filing, v);
      fParsed := fParsed[k := TextOrEmpty(found)];
    }
    AllFieldNames();
  }

  /** The body of the per-entry loop: the required fields, then the optional ones. */
  method ParseEntry(filing: Entry) returns (r: Result<Filing, ParseError>)
    ensures r.Ok? <==> MissingTag(filing).None?
    ensures r.Ok? ==> IsRecordOf(r.value, filing)
    ensures r.Err? ==> r.error == RequiredTagMissing(MissingTag(filing).value)
  {
    var required := ReadRequired(filing);
    if required.Err? {
      return Err(required.error);
    }
    var fParsed := ReadOptional(filing, required.value);
    return Ok(fParsed);
  }

  /** The required and optional field names together are the record's keys. */
  lemma AllFieldNames()
    ensures NamesUpTo(RequiredFields, |RequiredFields|) + NamesUpTo(OptionalFields, |OptionalFields|) == FieldNames
  {
    assert NamesUpTo(RequiredFields, 4) == {"accession-number", "type", "url", "date"};
    assert NamesUpTo(OptionalFields, 7) ==
      {"act", "file_number", "file_number_url", "film_number", "name", "description", "size"};
  }

  /** `__parsePageFilings`: one record per entry of the page, in entry order. */
  method ParsePageFilings(page: Page) returns (r: Result<seq<Filing>, ParseError>)
    ensures r.Ok? <==> FirstFailure(page).None?
    ensures r.Ok? ==> Records(r.value, page)
    ensures r.Err? ==> r.error == RequiredTagMissing(FirstFailure(page).value)
  {
    var filingsParsed: seq<Filing> := [];
    for i := 0 to |page|
      invariant Records(filingsParsed, page[..i])
      invariant FirstFailure(page[..i]).None?
    {
      var fParsed := ParseEntry(page[i]);
      FirstFailureAppend(page[..i], [page[i]]);
      assert page[..i + 1] == page[..i] + [page[i]];
      if fParsed.Err? {
        FirstFailureAppend(page[..i + 1], page[i + 1..]);
        assert page == page[..i + 1] + page[i + 1..];
        return Err(fParsed.error);
      }
      filingsParsed := filingsParsed + [fParsed.value];
    }
    assert page[..|page|] == page;
    return Ok(filingsParsed);
  }

  lemma {:induction false} FirstFailureAppend(a: seq<Entry>, b: seq<Entry>)
    ensures FirstFailure(a + b) == if FirstFailure(a).Some? then FirstFailure(a) else FirstFailure(b)
    decreases |a|
  {
    if a == [] {
      assert a + b == b;
    } else {
      assert (a + b)[0] == a[0] && (a + b)[1..] == a[1..] + b;
      FirstFailureAppend(a[1..], b);
    }
  }

  lemma RecordsAppend(fs: seq<Filing>, es: seq<Entry>, gs: seq<Filing>, ds: seq<Entry>)
    requires Records(fs, es) && Records(gs, ds)
    ensures Records(fs + gs, es + ds)
  {
    forall i | 0 <= i < |es| + |ds| ensures IsRecordOf((fs + gs)[i], (es + ds)[i]) {
      if i >= |es| {
        assert (fs + gs)[i] == gs[i - |es|] && (es + ds)[i] == ds[i - |es|];
      }
    }
  }

  /**
   * `__parseHTML`: the records of all pages, concatenated in page order;
   * the first missing required tag anywhere stops the whole parse.
   */
  method ParseHtml(pages: seq<Page>) returns (r: Result<seq<Filing>, ParseError>)
    ensures r.Ok? <==> FirstFailure(Concat(pages)).None?
    ensures r.Ok? ==> Records(r.value, Concat(pages))
    ensures r.Err? ==> r.error == RequiredTagMissing(FirstFailure(Concat(pages)).value)
  {
    var filings: seq<Filing> := [];
    for p := 0 to |pages|
      invariant Records(filings, Concat(pages[..p]))
      invariant FirstFailure(Concat(pages[..p])).None?
    {
      var pageFilings := ParsePageFilings(pages[p]);
      assert pages[..p + 1] == pages[..p] + [pages[p]];
      ConcatAppend(pages[..p], pages[p]);
      FirstFailureAppend(Concat(pages[..p]), pages[p]);
      if pageFilings.Err? {
        ConcatSplit(pages, p + 1);
        FirstFailureAppend(Concat(pages[..p + 1]), Concat(pages[p + 1..]));
        return Err(pageFilings.error);
      }
      RecordsAppend(filings, Concat(pages[..p]), pageFilings.value, pages[p]);
      filings := filings + pageFilings.value;
    }
    assert pages[..|pages|] == pages;
    return Ok(filings);
  }

  lemma {:induction false} ConcatSplit<T>(ss: seq<seq<T>>, n: nat)
    requires n <= |ss|
    ensures Concat(ss) == Concat(ss[..n]) + Concat(ss[n..])
    decreases n
  {
    if n > 0 {
      assert ss[1..][..n - 1] == ss[1..n] && ss[1..][n - 1..] == ss[n..];
      ConcatSplit(ss[1..], n - 1);
      assert ss[..n] == [ss[0]] + ss[1..n];
      assert Concat(ss[..n]) == ss[0] + Concat(ss[1..n]);
    } else {
      assert ss[n..] == ss;
    }
  }

  // ---------------------------------------------------------------- record properties

  /** Every record has exactly eleven keys. */
  lemma RecordKeyCount(f: Filing, e: Entry)
    requires IsRecordOf(f, e)
    ensures |f.Keys| == 11
  {
    var req := {"accession-number", "type", "url", "date"};
    var opt := {"act", "file_number", "file_number_url", "film_number", "name", "description", "size"};
    assert FieldNames == req + opt;
    RequiredNameCount();
    OptionalNameCount();
    NamesDisjoint();
  }

  lemma RequiredNameCount()
    ensures |{"accession-number", "type", "url", "date"}| == 4
  {
    var names := ["accession-number", "type", "url", "date"];
    assert {"accession-number", "type", "url", "date"} == set x | x in names;
    DistinctCard(names);
  }

  lemma OptionalNameCount()
    ensures |{"act", "file_number", "file_number_url", "film_number", "name", "description", "size"}| == 7
  {
    var names := ["act", "file_number", "file_number_url", "film_number", "name", "description", "size"];
    assert {"act", "file_number", "file_number_url", "film_number", "name", "description", "size"}
      == set x | x in names;
    DistinctCard(names);
  }

  lemma NamesDisjoint()
    ensures {"accession-number", "type", "url", "date"}
      * {"act", "file_number", "file_number_url", "film_number", "name", "description", "size"} == {}
  {
    var req := {"accession-number", "type", "url", "date"};
    var opt := {"act", "file_number", "file_number_url", "film_number", "name", "description", "size"};
    forall x | x in req ensures x !in opt {
      assert x[0] == 'a' ==> |x| == 16;
    }
  }

  lemma {:induction false} DistinctCard(xs: seq<string>)
    requires forall i, j :: 0 <= i < j < |xs| ==> xs[i] != xs[j]
    ensures |set x | x in xs| == |xs|
    decreases |xs|
  {
    if xs != [] {
      var n := |xs| - 1;
      DistinctCard(xs[..n]);
      var init := set x | x in xs[..n];
      assert (set x | x in xs) == init + {xs[n]};
      assert xs[n] !in init;
    }
  }

  /** An entry determines its record: two records of the same entry are equal. */
  lemma RecordUnique(f: Filing, g: Filing, e: Entry)
    requires IsRecordOf(f, e) && IsRecordOf(g, e)
    ensures f == g
  {
    forall name | name in FieldNames ensures f[name] == g[name] {
      var names := ["accession-number", "type", "url", "date",
        "act", "file_number", "file_number_url", "film_number", "name", "description", "size"];
      assert name in names;
      var k :| 0 <= k < |names| && names[k] == name;
      if k < 4 {
        assert RequiredFields[k].0 == name;
      } else {
        assert OptionalFields[k - 4].0 == name;
      }
    }
  }

  /** Field values: a present tag's first text, `accession-number` read from `accession-nunber`, `''` for an absent optional tag. */
  lemma RecordFields(f: Filing, e: Entry)
    requires IsRecordOf(f, e)
    ensures FindTag(e, "accession-nunber") == Some(f["accession-number"])
    ensures FindTag(e, "filing-type") == Some(f["type"])
    ensures FindTag(e, "filing-href") == Some(f["url"]) && FindTag(e, "filing-date") == Some(f["date"])
    ensures FindTag(e, "size").None? ==> f["size"] == ""
    ensures FindTag(e, "form-name").None? ==> f["name"] == ""
    ensures forall j :: 0 <= j < |OptionalFields| && FindTag(e, OptionalFields[j].1).Some? ==>
      f[OptionalFields[j].0] == FindTag(e, OptionalFields[j].1).value
  {
    assert RequiredFields[0] == ("accession-number", "accession-nunber");
    assert RequiredFields[1] == ("type", "filing-type");
    assert RequiredFields[2] == ("url", "filing-href");
    assert RequiredFields[3] == ("date", "filing-date");
    assert OptionalFields[6] == ("size", "size");
    assert OptionalFields[4] == ("name", "form-name");
  }
}
