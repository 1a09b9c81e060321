# PyEDGAR in Dafny

A model of PyEDGAR's text-extraction and list-building core. PyEDGAR is a
scraper for the SEC's EDGAR service. The model covers five pieces:

- **Company page parser** (`company_parser.dfy`, with the regular expressions
  written out as recognisers in `company_patterns.dfy`). It extracts:
  - the mailing addresses: a type line, the phone number, and the street lines;
  - the company name;
  - the former names with the dates through which the company filed under them;
  - the SIC code, the state of location and of incorporation, and the fiscal
    year end, read from the identification block.
- **Listing downloader** (`filings_downloader.dfy`). It requests the pages of 100
  filings at offsets 0, 100, 200, … with one retry per request. It stops after the
  first page without the next-page link.
- **Listing parser** (`filings_parser.dfy`). Each `entry` becomes a record with
  four required fields (a missing one fails the parse) and seven optional fields
  (a missing one is `''`). Each page yields its records in order, and the pages'
  records are concatenated.
- **Ticker lookup** (`cik_tools.dfy`). It runs `findall` of `.*CIK=(\d{10}).*` over
  the response body and accepts exactly one distinct CIK.
- **Type filter** (`filings.dfy`). It keeps the filings whose `type` contains the
  requested type, in their order. `get10K` and `get10Q` are instances of it.

Shared pieces:

- `text.dfy` holds Python's `str.strip`, `str.split`, `str.find`, `in` and
  `re.sub('[^0-9]', '', s)`. It also holds the line-end scan behind `.`, which does
  not match a line break.
- `wrappers.dfy` holds `Option` and `Result`.
- `http.dfy` holds the query and response values that stand for `requests`.

The regular expressions are modelled by hand with Python's backtracking
semantics:

- `findall` takes the leftmost match, then continues after it without overlap.
- A lazy `+?` tries the shortest extent first; a greedy `.*` tries the longest first.
- `.` never crosses a line break.

Each exception the source raises is an error value of a `Result`. The exceptions
are:

- `IndexError` on an empty `findall` list;
- `AttributeError` on a `None` from BeautifulSoup;
- `RetryError`, `RequestException` and `LookupError`;
- `KeyError` on a record without `type`.

BeautifulSoup's output is taken as input:

- a mailer block is its text;
- the name span is a sequence of text and element children;
- the identification block is its text, plus its markup as `str()` gives it;
- a listing entry is the (tag, text) list of its descendant elements in document
  order.

The EDGAR service is an oracle function from a query (and, for listings, the
attempt number) to a response.

## Model

| member | source | states |
|---|---|---|
| Text.Strip | PyEDGAR/company/parser.py:65 | the stripped string has no leading or trailing whitespace (the `str.isspace` set) and is no longer than the input |
| Text.StripSlice | PyEDGAR/company/parser.py:65 | `strip` removes only a whitespace prefix and a whitespace suffix: the result is a slice of the input with all-space margins |
| Text.StripIdempotent | PyEDGAR/company/parser.py:86 | stripping an already stripped line again changes nothing |
| Text.StripNoEdgeSpace | PyEDGAR/company/parser.py:191 | a string without edge whitespace is its own strip |
| Text.Split | PyEDGAR/company/parser.py:63 | `split('\n')` yields at least one piece, no piece holds the separator, and joining the pieces with it gives back the input |
| Text.SplitJoin | PyEDGAR/company/parser.py:63 | splitting a join of separator-free pieces gives back the pieces |
| Text.FindFrom | PyEDGAR/filings/downloader.py:28 | `find` returns the first occurrence at or after the start, or -1 exactly when there is none |
| Text.ContainsIff | PyEDGAR/filings/filings.py:48 | `sub in s` holds exactly when `sub` occurs at some index of `s` |
| Text.DigitsOnly | PyEDGAR/company/parser.py:81 | `re.sub('[^0-9]', '', s)` keeps only ASCII digits and never lengthens its input |
| Text.DigitsOnlyAppend | PyEDGAR/company/parser.py:81 | removing the non-digits distributes over concatenation |
| Text.DigitsOnlyOfDigits | PyEDGAR/company/parser.py:81 | a string of digits is left unchanged |
| Text.LineEnd | PyEDGAR/util/cik_tools.py:47 | the extent of `.`: the first line break at or after the start, or the end, with no break in between |
| CompanyPatterns.PhoneFormatsExclusive | PyEDGAR/company/parser.py:53-54 | no two of the three phone formats can match at the same position, so the order of the alternatives never changes the match |
| CompanyPatterns.PhoneMatchLength | PyEDGAR/company/parser.py:53-54 | the match at a position is 14, 12 or 10 characters long exactly when the parenthesised, dashed or bare format is found there, lies inside the string, and there is none exactly when no format is found |
| CompanyPatterns.PhoneMatchText | PyEDGAR/company/parser.py:53-54 | the text a phone match covers is one of the three phone formats |
| CompanyPatterns.PhoneFindAll | PyEDGAR/company/parser.py:78 | the non-overlapping matches of at least ten characters each number at most a tenth of the characters scanned |
| CompanyPatterns.PhoneFindAllText | PyEDGAR/company/parser.py:78 | every string `findall` returns for the phone pattern is in one of the three formats |
| CompanyPatterns.PhoneFindAllNone | PyEDGAR/company/parser.py:78 | `findall` returns nothing when no position from the start on begins a phone match |
| CompanyPatterns.PhoneFindAllLeftmost | PyEDGAR/company/parser.py:78 | `findall` returns the leftmost match first, then resumes scanning right after it, so matches never overlap |
| CompanyPatterns.SeparatedGroup | PyEDGAR/company/parser.py:81 | a run of non-digits followed by a digit group is reduced to exactly that group |
| CompanyPatterns.PhoneDigits | PyEDGAR/company/parser.py:81 | stripping the non-digits from any phone match leaves exactly its ten digits, picked position by position per format |
| CompanyPatterns.LazyAnyThen | PyEDGAR/company/parser.py:138 | a lazy `.+?` followed by a literal ends at the first occurrence of the literal reachable without crossing a line break, and fails exactly when no occurrence is reachable before a line break |
| CompanyPatterns.SentenceEndThrough | PyEDGAR/company/parser.py:138 | a sentence match holds `(filings through ` with at least one character and `)` after it |
| CompanyPatterns.SentenceSlice | PyEDGAR/company/parser.py:138 | the text of a sentence match starts with `formerly:`, holds `(filings through ` after at least one character, and ends with `)` at least one character later, on one line |
| CompanyPatterns.SentencesFrom | PyEDGAR/company/parser.py:138-140 | every former-name sentence found starts with `formerly:`, holds `(filings through ` and ends with `)` on one line |
| CompanyPatterns.SentenceEndFrom | PyEDGAR/company/parser.py:138 | when the sentence pattern fails at a `formerly:`, no candidate end of the first `.+?` on its line has `(filings through ` with a `)` reachable after it |
| CompanyPatterns.SentenceEndFromFound | PyEDGAR/company/parser.py:138 | an end found is one past the `)` of the shape the two lazy groups meet first: the first `(filings through ` that a `)` follows on the line, then the first such `)` |
| CompanyPatterns.SentenceEndFromFirst | PyEDGAR/company/parser.py:138 | the match at a `formerly:` ends one past the `)` of its first shape |
| CompanyPatterns.SentencesFromNone | PyEDGAR/company/parser.py:138-140 | `findall` finds no sentence exactly when no position starts the pattern's shape |
| CompanyPatterns.SentencesFromLeftmost | PyEDGAR/company/parser.py:138-140 | the leftmost position that starts a shape gives the first sentence, running to the `)` of its first shape, and `findall` resumes right after it |
| CompanyPatterns.LastDate | PyEDGAR/company/parser.py:143 | the greedy `.*` before the date picks the last `dddd-dd-dd` position in range, and finds none only when there is none |
| CompanyPatterns.NameParen | PyEDGAR/company/parser.py:143 | the greedy `(.*)` ends at the last `(` on the line that a date follows, and the greedy `.*` after it at the last date; none exactly when no `(` on the line is followed by a date |
| CompanyPatterns.NameDateAt | PyEDGAR/company/parser.py:143 | the match at a `formerly:` is the one the greedy groups find: no match there has a later `(`, none with that `(` a later date; none is reported exactly when no `(` and date pair exists on the line |
| CompanyPatterns.NameDateFrom | PyEDGAR/company/parser.py:143-146 | the date group has the shape `dddd-dd-dd`, and none is returned only when no position starts a match |
| CompanyPatterns.NameDateFromMatch | PyEDGAR/company/parser.py:143-146 | the groups returned are the name and date groups of the greedy match at the leftmost position that starts a match |
| CompanyPatterns.FourDigits | PyEDGAR/company/parser.py:201 | the fiscal-year group is four digits, and there is none only when no four digits are reachable on the line |
| CompanyPatterns.FourDigitsFound | PyEDGAR/company/parser.py:201 | digits found are the first four-digit run reachable on the line |
| CompanyPatterns.WordThen | PyEDGAR/company/parser.py:187 | the lazy `(\w+?)` before a closing tag is the whole word run, and fails exactly when no word group is followed by the closing tag |
| CompanyPatterns.TagWord | PyEDGAR/company/parser.py:187 | the location and incorporation groups are non-empty runs of word characters, and there is none only when no `>` on the line is followed by a word group and the closing tag |
| CompanyPatterns.TagWordFound | PyEDGAR/company/parser.py:187-193 | a word found is the word after the first `>` on the line that a word and the closing tag follow |
| CompanyPatterns.DigitGroupIsRun | PyEDGAR/company/parser.py:179 | the lazy `(\d+?)` before `</a> -` can only be the whole digit run |
| CompanyPatterns.SicTail | PyEDGAR/company/parser.py:179 | the code group is a non-empty run of digits, and there is none only when no digit group and `<br` on the line complete the tail |
| CompanyPatterns.SicTailMatched | PyEDGAR/company/parser.py:179 | a tail found is the match backtracking finds: the code is the whole digit run, the type runs to the first `<br`, and every tail match there has that code and no earlier `<br` |
| CompanyPatterns.SicAfterColonFound | PyEDGAR/company/parser.py:179 | a tail found after the colon is the first tail on the colon's line |
| CompanyPatterns.SicColon | PyEDGAR/company/parser.py:179 | the SIC code group is a non-empty run of digits, and there is none only when no colon and tail on the line complete the pattern |
| CompanyPatterns.SicColonFound | PyEDGAR/company/parser.py:179 | groups found come from the match with the first colon that admits a tail and the first tail after that colon, and equal that match's slices |
| CompanyPatterns.FieldAt | PyEDGAR/company/parser.py:178-203 | the groups at a label have that pattern's shape, and none is returned only when the pattern cannot match there |
| CompanyPatterns.FieldAtFound | PyEDGAR/company/parser.py:178-203 | groups found at a label are those of the match there that backtracking finds |
| CompanyPatterns.FieldFromFound | PyEDGAR/company/parser.py:178-203 | groups found from a position are those of the match at the leftmost label from there on where the pattern matches |
| CompanyPatterns.FieldSearch | PyEDGAR/company/parser.py:178-203 | the first match of each of the four metadata patterns has groups of that pattern's shape, and none is found only when the pattern matches at no label |
| CompanyPatterns.FieldSearchFound | PyEDGAR/company/parser.py:178-203 | groups are found exactly when the pattern matches at some label, and they are those of the match at the leftmost such label |
| CompanyParser.AddressLines | PyEDGAR/company/parser.py:63-65 | a block yields at least one line, one stripped line per piece of the split |
| CompanyParser.StripAllAt | PyEDGAR/company/parser.py:65 | each address item is the strip of the corresponding split piece |
| CompanyParser.ParseAddress | PyEDGAR/company/parser.py:61-89 | the loop over the lines builds exactly the address the line-by-line definition gives |
| CompanyParser.ScanStep | PyEDGAR/company/parser.py:77-86 | one more line either records its phone or appends it and a space to the street buffer, never both |
| CompanyParser.GetAddresses | PyEDGAR/company/parser.py:57-94 | one address per mailer block, in document order |
| CompanyParser.AddressKind | PyEDGAR/company/parser.py:71-75 | the address type is the first line of the block, stripped |
| CompanyParser.AddressPhone | PyEDGAR/company/parser.py:77-83 | a phone is set exactly when some non-type line has exactly one phone match; it is ten digits, from the last such line |
| CompanyParser.LastPhoneIsLast | PyEDGAR/company/parser.py:79-83 | the phone comes from the last phone line and no later line is one |
| CompanyParser.LastPhoneDigits | PyEDGAR/company/parser.py:80-82 | the recorded phone is ten ASCII digits |
| CompanyParser.StreetBufferFolds | PyEDGAR/company/parser.py:68-86 | the street buffer is the non-phone lines, each followed by one space, in order |
| CompanyParser.AddressStreet | PyEDGAR/company/parser.py:85-89 | the street address is the stripped concatenation of `line + ' '` over the non-type non-phone lines, has no edge whitespace, no line break, and is `''` when only the type line exists |
| CompanyParser.TextChildren | PyEDGAR/company/parser.py:112 | text children are found exactly when some child is text, and the first is the first text child, after elements only |
| CompanyParser.CompanyName | PyEDGAR/company/parser.py:108-115 | the name is the first text child of the span, stripped, elements skipped; a missing span or a span without text fails with its own error |
| CompanyParser.FormerNameOf | PyEDGAR/company/parser.py:146-149 | a former name's filings-through date has the shape `dddd-dd-dd` and the name is stripped |
| CompanyParser.FormerNameMeaning | PyEDGAR/company/parser.py:143-149 | a sentence yields a record exactly when the name-and-date pattern matches it, and the record is the stripped name group and the date group of the greedy match at the leftmost position that starts one |
| CompanyParser.FirstUndated | PyEDGAR/company/parser.py:145-148 | none is returned exactly when every sentence yields a name and date; otherwise the first sentence that does not |
| CompanyParser.FirstUndatedAt | PyEDGAR/company/parser.py:145-148 | the reported sentence is the undated one that follows only dated sentences |
| CompanyParser.GetFormerNames | PyEDGAR/company/parser.py:132-152 | one former name per sentence in order when every sentence has a date, the first undated sentence's error otherwise, and an error for a missing block |
| CompanyParser.FormerNamesShape | PyEDGAR/company/parser.py:145-150 | every record's date is `dddd-dd-dd` and every name stripped |
| CompanyParser.FormatFiscalYearEnd | PyEDGAR/company/parser.py:205 | `g[0:2] + '-' + g[2:]` is one longer, has `-` at index 2 and gives back `g` without it |
| CompanyParser.MetadataMatches | PyEDGAR/company/parser.py:178-203 | the metadata is extracted exactly when all four patterns match somewhere in the identification markup; otherwise the error names the first, in source order, that matches nowhere |
| CompanyParser.CompanyMetadata | PyEDGAR/company/parser.py:171-206 | succeeds exactly when all four searches find groups, reports the first missing one otherwise; SIC, location and state are the first match's groups, SIC type the stripped unescaped group, and the fiscal year end is the `dddd` group with `-` after two digits |
| CompanyParser.MetadataOf | PyEDGAR/company/parser.py:182-206 | SIC, location and state are the groups themselves (stripping a word group changes nothing), SIC type the stripped unescaped group, and the fiscal year end `dd-dd` gives back the four-digit group once its `-` is removed |
| CompanyParser.WordStripped | PyEDGAR/company/parser.py:191-198 | stripping a word-character group changes nothing |
| CompanyParser.ParseCompanyPage | PyEDGAR/company/parser.py:18-32 | fails exactly with the first error among name, identification block, former names and metadata; otherwise returns the addresses, name, former names and metadata each as specified |
| FilingsDownloader.ListingQueryShape | PyEDGAR/filings/downloader.py:60-69 | a listing request has exactly the keys `action, CIK, type, dateb, owner, start, count, output` in that order, empty `type` and `dateb`, the requested offset and count; different offsets give different requests |
| FilingsDownloader.MakeRequest | PyEDGAR/filings/downloader.py:72-85 | one send, or two with the same query when the first fails; the successful attempt's text unchanged; `RetryError` when the retry fails |
| FilingsDownloader.EdgarDownload | PyEDGAR/filings/downloader.py:16-32 | on a service that ends the listing, returns the non-empty pages fetched at offsets `100*k` with count 100 in fetch order, each but the last with the next-page link and the last without; or `RetryError` at a failing page reached after continuing pages |
| FilingsDownloader.ListingUnique | PyEDGAR/filings/downloader.py:25-30 | the listing is determined by the service |
| FilingsDownloader.ListingOrFailure | PyEDGAR/filings/downloader.py:25-30 | a service that yields a listing has no failing page on the way |
| FilingsParser.FindTagFirst | PyEDGAR/filings/parser.py:65 | `find` gives the text of the first descendant with the tag, and nothing exactly when no descendant has it |
| FilingsParser.MissingTagFromMeaning | PyEDGAR/filings/parser.py:64-65 | the scan of the required tags from a position finds nothing exactly when all are present, else the first absent one |
| FilingsParser.MissingTagMeaning | PyEDGAR/filings/parser.py:64-65 | an entry is complete exactly when all four required tags are present; the reported tag is the first absent one |
| FilingsParser.FirstFailureMeaning | PyEDGAR/filings/parser.py:61-65 | a parse fails exactly when some entry is incomplete, reporting the first incomplete entry's tag |
| FilingsParser.ReadRequired | PyEDGAR/filings/parser.py:64-65 | the four required fields, each the text of its tag, or the first missing tag |
| FilingsParser.ReadOptional | PyEDGAR/filings/parser.py:67-71 | adds the seven optional fields, `''` for an absent tag, giving a record with exactly the eleven keys |
| FilingsParser.ParseEntry | PyEDGAR/filings/parser.py:62-71 | an entry becomes its record exactly when no required tag is missing |
| FilingsParser.AllFieldNames | PyEDGAR/filings/parser.py:47-58 | the required and optional field names together are the eleven record keys |
| FilingsParser.ParsePageFilings | PyEDGAR/filings/parser.py:41-76 | one record per entry in entry order, or the first missing required tag, with no partial list |
| FilingsParser.FirstFailureAppend | PyEDGAR/filings/parser.py:19-25 | the first failure of concatenated entries is that of the first part, else that of the second |
| FilingsParser.RecordsAppend | PyEDGAR/filings/parser.py:25 | appending a page's records to the records so far keeps record-per-entry |
| FilingsParser.ConcatSplit | PyEDGAR/filings/parser.py:19-25 | the concatenation of all pages is that of the first pages followed by that of the rest |
| FilingsParser.ParseHtml | PyEDGAR/filings/parser.py:17-27 | the records of all pages concatenated in page order, one per entry, or the first missing required tag anywhere |
| FilingsParser.RecordKeyCount | PyEDGAR/filings/parser.py:47-71 | every record has exactly eleven keys |
| FilingsParser.RecordUnique | PyEDGAR/filings/parser.py:61-71 | an entry determines its record |
| FilingsParser.RecordFields | PyEDGAR/filings/parser.py:46-71 | `accession-number` is read from the tag `accession-nunber`, the other required fields from their tags; an absent optional tag gives `''`, a present one its text |
| CikTools.LastCikFrom | PyEDGAR/util/cik_tools.py:47 | the greedy `.*` gives back characters until the last `CIK=` with ten digits in range, and finds none only when there is none |
| CikTools.LineScan | PyEDGAR/util/cik_tools.py:47-50 | scanning from inside a line yields that line's last CIK, if any, then the matches after the line break |
| CikTools.MatchesByLine | PyEDGAR/util/cik_tools.py:47-50 | the matches of the whole body are, line by line, each line's last `CIK=` with ten digits, at most one per line |
| CikTools.ScanSuffix | PyEDGAR/util/cik_tools.py:50 | the scan from a position depends only on the text from there on |
| CikTools.MatchesAreCiks | PyEDGAR/util/cik_tools.py:47-50 | every match is ten digits that follow `CIK=` in the body |
| CikTools.DistinctCount | PyEDGAR/util/cik_tools.py:53 | the set of matches is empty exactly when there are none, and a singleton exactly when all matches are equal |
| CikTools.ResolveCik | PyEDGAR/util/cik_tools.py:38-63 | a failed request raises first; no match is `CIK match not found`; two distinct matches are `Unique CIK match not found`; repeats of one CIK are accepted and the result is the first match, ten digits following `CIK=` in the body |
| CikTools.LookupQueryShape | PyEDGAR/util/cik_tools.py:27-32 | a lookup request has exactly the keys `CIK, Find, owner, action` in that order, the ticker under `CIK` |
| CikTools.GetCik | PyEDGAR/util/cik_tools.py:35-63 | the request fails exactly when the lookup response is not ok, and a result is a CIK that follows `CIK=` in the response |
| Filings.Matching | PyEDGAR/filings/filings.py:45-51 | the kept filings are no more than the input and all carry `type` |
| Filings.GetFilingByType | PyEDGAR/filings/filings.py:45-51 | the loop keeps exactly the filings the filter definition keeps, and raises on a filing without `type` |
| Filings.Get10K | PyEDGAR/filings/filings.py:64 | the filter with `10-K` |
| Filings.Get10Q | PyEDGAR/filings/filings.py:77 | the filter with `10-Q` |
| Filings.MatchingMembers | PyEDGAR/filings/filings.py:47-49 | a filing is kept exactly when it is in the input and its type contains the requested type |
| Filings.MatchingOrder | PyEDGAR/filings/filings.py:45-51 | the kept filings are a subsequence of the input, in input order |
| Filings.SubsequenceLength | PyEDGAR/filings/filings.py:45-51 | a subsequence is no longer than the input |
| Filings.MatchingIdempotent | PyEDGAR/filings/filings.py:47-49 | filtering the result again by the same type changes nothing |
| Filings.EmptyTypeKeepsAll | PyEDGAR/filings/filings.py:48 | an empty type keeps every filing |
| Filings.AmendmentsIncluded | PyEDGAR/filings/filings.py:54-77 | `10-K` keeps `10-K/A`, `10-Q` keeps `10-Q/A`, and neither keeps the other's plain type |
| Filings.RecordsTyped | PyEDGAR/filings/filings.py:48 | every record the listing parser builds has `type`, so the filter never raises on it |

## Left out

- HTTP transport (`requests.get`, URLs, status codes) is not modelled. The service is a function parameter from query to response (`ok`, `text`). The listing downloader's oracle also takes the attempt number.
- Logging calls are left out.
- BeautifulSoup is replaced by its results, taken as inputs: `find_all('div', class_='mailer')` texts, the name span's children, the identification block's text and `str()` markup, and each entry's (tag, text) descendants.
- `html.unescape` is an uninterpreted function parameter of the metadata extraction.
- The text child covers every `str` child BeautifulSoup yields (strings, comments, CDATA); which nodes are strings is not modelled.
- `\d` is modelled as ASCII `[0-9]` and `\w` as `[A-Za-z0-9_]`. Python's `re` on `str` also accepts other Unicode digits and letters.
- CompanyParser.LastPhoneDigits: the ten-digit phone holds only for ASCII digits. In the source, `\d{3}` also matches other Unicode decimal digits, such as Arabic-Indic ones. `re.sub('[^0-9]', '', …)` at `PyEDGAR/company/parser.py:81` then removes them, so a phone line written in such digits gives a phone shorter than ten digits, even `''`.
- `PyEDGAR/company/downloader.py`, `PyEDGAR/company/info.py` and `PyEDGAR/edgar/filings/get.py` are thin wiring around one request and are not part of this model.
- `getAllFilings` (`PyEDGAR/filings/filings.py:8-27`) only chains the download and the parse and is left out. It imports `__downloadFilings`, a name `PyEDGAR/filings/downloader.py` does not define. `GetFilingByType`, `Get10K` and `Get10Q` therefore take the list of all filings as input rather than a CIK.
- The tests under `tests/` query the live service and are not modelled.
- EdgarDownload: termination is proved only for a service that ends the listing at some page, as its precondition. Against a real server pagination need not end.
- MakeRequest: the queries sent are recorded in a ghost out-parameter, which a caller cannot observe.
- The per-entry loop body of `__parsePageFilings` is modelled as two methods, `ReadRequired` and `ReadOptional`, called in sequence by `ParseEntry`.
- Filings.Matching: keeping duplicates the right number of times is stated only through MatchingOrder's subsequence and the definition. No multiplicity lemma is given.
