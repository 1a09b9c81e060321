/**
 * The company page parser: addresses from the `mailer` blocks, the company
 * name from the `companyName` span, former names from the text of the
 * `identInfo` block and the classification metadata from its raw markup.
 * The HTML tree is abstracted: each input is what BeautifulSoup hands the
 * parser (a block's `.text`, a span's `.children`, a block's text and
 * `str()` form).
 */
module CompanyParser {
  import opened Wrappers
  import opened Text
  import opened CompanyPatterns

  /** One `mailer` block: its first line, the other lines, its phone number if any. */
  datatype Address = Address(kind: string, streetAddress: string, phone: Option<string>)

  /** An immediate child of the name span: a string node or a nested element. */
  datatype Child = TextChild(text: string) | ElementChild

  datatype FormerName = FormerName(formerName: string, filingsThrough: string)

  datatype Metadata = Metadata(
    sic: string,
    sicType: string,
    location: string,
    incorporationState: string,
    fiscalYearEnd: string)

  /** The `identInfo` paragraph: its `.text` and its `str()` markup. */
  datatype IdentInfo = IdentInfo(text: string, markup: string)

  /** What the parser reads from a company page. */
  datatype CompanyPage = CompanyPage(
    mailers: seq<string>,
    companyName: Option<seq<Child>>,
    identInfo: Option<IdentInfo>)

  datatype CompanyInfo = CompanyInfo(
    addresses: seq<Address>,
    name: string,
    formerNames: seq<FormerName>,
    metadata: Metadata)

  /** The exceptions the parser lets escape (AttributeError on a missing node, IndexError on a missing match). */
  datatype CompanyError =
    | NameSpanMissing
    | NameTextMissing
    | IdentInfoMissing
    | FilingsThroughMissing(sentence: string)
    | MetadataMissing(field: string)

  // ================================================================ addresses

  /** `[i.strip() for i in parts]`. */
  function StripAll(parts: seq<string>): (items: seq<string>)
    ensures |items| == |parts|
  {
    if parts == [] then [] else [Strip(parts[0])] + StripAll(parts[1..])
  }

  lemma {:induction false} StripAllAt(parts: seq<string>, k: nat)
    requires k < |parts|
    ensures StripAll(parts)[k] == Strip(parts[k])
    decreases k
  {
    if k > 0 {
      StripAllAt(parts[1..], k - 1);
    }
  }

  /** `[i.strip() for i in text.split('\n')]`: never empty. */
  function AddressLines(blockText: string): (items: seq<string>)
    ensures |items| >= 1
  {
    StripAll(Split(blockText, '\n'))
  }

  /** A line the phone pattern matches exactly once. */
  predicate IsPhoneLine(line: string) {
    |PhoneMatches(line)| == 1
  }

  /** The digits of the one phone match on a phone line. */
  function PhoneOf(line: string): string
    requires IsPhoneLine(line)
  {
    DigitsOnly(PhoneMatches(line)[0])
  }

  /** The phone number recorded after scanning `lines` in order. */
  function LastPhone(lines: seq<string>): Option<string>
  {
    if lines == [] then None
    else if IsPhoneLine(lines[|lines| - 1]) then Some(PhoneOf(lines[|lines| - 1]))
    else LastPhone(lines[..|lines| - 1])
  }

  /** The street buffer after scanning `lines` in order: `line + ' '` per non-phone line. */
  function StreetBuffer(lines: seq<string>): string
  {
    if lines == [] then ""
    else
      var last := lines[|lines| - 1];
      StreetBuffer(lines[..|lines| - 1]) + (if IsPhoneLine(last) then "" else last + " ")
  }

  /** The address record the parser builds from one block's text. */
  function AddressOf(blockText: string): Address
  {
    var items := AddressLines(blockText);
    Address(items[0], Strip(StreetBuffer(items[1..])), LastPhone(items[1..]))
  }

  /** Parses one `mailer` block, line by line. */
  method ParseAddress(blockText: string) returns (address: Address)
    ensures address == AddressOf(blockText)
  {
    var items := AddressLines(blockText);
    var kind := "";
    var phone: Option<string> := None;
    var streetAddress := "";
    var idx := 0;
    while idx < |items|
      invariant 0 <= idx <= |items|
      invariant idx >= 1 ==> kind == items[0]
      invariant idx == 0 ==> phone == None && streetAddress == ""
      invariant idx >= 1 ==> phone == LastPhone(items[1..idx])
      invariant idx >= 1 ==> streetAddress == StreetBuffer(items[1..idx])
    {
      if idx == 0 {
        kind := items[idx];
        idx := idx + 1;
        assert items[1..idx] == [];
        continue;
      }
      var item := items[idx];
      ScanStep(items, idx);
      var phoneMatches := PhoneMatches(item);
      if |phoneMatches| == 1 {
        phone := Some(DigitsOnly(phoneMatches[0]));
        idx := idx + 1;
        continue;
      }
      assert Strip(item) == item by {
        StripAllAt(Split(blockText, '\n'), idx);
        StripIdempotent(Split(blockText, '\n')[idx]);
      }
      streetAddress := streetAddress + Strip(item) + " ";
      idx := idx + 1;
    }
    assert idx == |items| && items[1..idx] == items[1..];
    address := Address(kind, Strip(streetAddress), phone);
  }

  /** One more line scanned: the phone and street buffer after line `n`. */
  lemma ScanStep(lines: seq<string>, n: nat)
    requires 1 <= n < |lines|
    ensures LastPhone(lines[1..n + 1]) ==
      if IsPhoneLine(lines[n]) then Some(PhoneOf(lines[n])) else LastPhone(lines[1..n])
    ensures StreetBuffer(lines[1..n + 1]) ==
      StreetBuffer(lines[1..n]) + (if IsPhoneLine(lines[n]) then "" else lines[n] + " ")
  {
    assert lines[1..n + 1][..n - 1] == lines[1..n];
    assert lines[1..n + 1][n - 1] == lines[n];
  }

  /** One address per `mailer` block, in document order. */
  method GetAddresses(mailers: seq<string>) returns (addresses: seq<Address>)
    ensures addresses == MapSeq(AddressOf, mailers)
  {
    addresses := [];
    for i := 0 to |mailers|
      invariant addresses == MapSeq(AddressOf, mailers[..i])
    {
      var address := ParseAddress(mailers[i]);
      assert mailers[..i + 1][..i] == mailers[..i];
      addresses := addresses + [address];
    }
    assert mailers[..|mailers|] == mailers;
  }

  // ---------------------------------------------------------------- what an address holds

  /** The address type is the block's first line, stripped. */
  lemma AddressKind(blockText: string)
    ensures AddressOf(blockText).kind ==
      Strip(if '\n' in blockText then blockText[..IndexOf(blockText, '\n')] else blockText)
  {
    SplitFirst(blockText, '\n');
    StripAllAt(Split(blockText, '\n'), 0);
  }

  /** What `LastPhone` picks: the digits of the last phone line, if there is one. */
  lemma {:induction false} LastPhoneIsLast(lines: seq<string>)
    ensures LastPhone(lines).None? <==> forall k :: 0 <= k < |lines| ==> !IsPhoneLine(lines[k])
    ensures LastPhone(lines).Some? ==>
      exists k :: (0 <= k < |lines| && IsPhoneLine(lines[k]) && LastPhone(lines) == Some(PhoneOf(lines[k]))
        && forall j :: k < j < |lines| ==> !IsPhoneLine(lines[j]))
    decreases |lines|
  {
    if lines != [] {
      var n := |lines| - 1;
      var init := lines[..n];
      LastPhoneIsLast(init);
      if !IsPhoneLine(lines[n]) {
        assert forall k :: 0 <= k < n ==> init[k] == lines[k];
        if LastPhone(lines).Some? {
          var k :| 0 <= k < n && IsPhoneLine(init[k]) && LastPhone(init) == Some(PhoneOf(init[k]))
            && forall j :: k < j < n ==> !IsPhoneLine(init[j]);
          assert lines[k] == init[k];
        }
      }
    }
  }

  /** A phone number, once found, is ten ASCII digits. */
  lemma {:induction false} LastPhoneDigits(lines: seq<string>)
    ensures LastPhone(lines).Some? ==> |LastPhone(lines).value| == 10 && AllDigits(LastPhone(lines).value)
    decreases |lines|
  {
    if lines != [] {
      var last := lines[|lines| - 1];
      if IsPhoneLine(last) {
        PhoneFindAllText(last, 0);
        PhoneDigits(PhoneMatches(last)[0]);
      } else {
        LastPhoneDigits(lines[..|lines| - 1]);
      }
    }
  }

  /**
   * The phone comes from a later line that the phone pattern matches
   * exactly once; the last such line wins; it is ten digits; without such
   * a line there is no phone.
   */
  lemma AddressPhone(blockText: string)
    ensures var items := AddressLines(blockText);
      var phone := AddressOf(blockText).phone;
      && (phone.None? <==> forall k :: 1 <= k < |items| ==> !IsPhoneLine(items[k]))
      && (phone.Some? ==> |phone.value| == 10 && AllDigits(phone.value))
      && (phone.Some? ==> exists k :: (1 <= k < |items| && IsPhoneLine(items[k])
            && phone.value == PhoneOf(items[k])
            && forall j :: k < j < |items| ==> !IsPhoneLine(items[j])))
  {
    var items := AddressLines(blockText);
    var rest := items[1..];
    LastPhoneIsLast(rest);
    LastPhoneDigits(rest);
    assert forall k :: 1 <= k < |items| ==> items[k] == rest[k - 1];
    if LastPhone(rest).None? {
      forall k | 1 <= k < |items| ensures !IsPhoneLine(items[k]) {
        assert !IsPhoneLine(rest[k - 1]);
      }
    } else {
      var k :| 0 <= k < |rest| && IsPhoneLine(rest[k]) && LastPhone(rest) == Some(PhoneOf(rest[k]))
        && forall j :: k < j < |rest| ==> !IsPhoneLine(rest[j]);
      assert IsPhoneLine(items[k + 1]);
      forall j | k + 1 < j < |items| ensures !IsPhoneLine(items[j]) {
        assert !IsPhoneLine(rest[j - 1]);
      }
    }
  }

  /** The lines that are not phone lines, in order: an independent reading of what goes into the street buffer. */
  function NonPhoneLines(lines: seq<string>): seq<string>
  {
    if lines == [] then []
    else (if IsPhoneLine(lines[0]) then [] else [lines[0]]) + NonPhoneLines(lines[1..])
  }

  /** `line + ' '` for each line, concatenated. */
  function SpaceTerminated(lines: seq<string>): string
  {
    if lines == [] then "" else lines[0] + " " + SpaceTerminated(lines[1..])
  }

  lemma {:induction false} NonPhoneLinesAppend(lines: seq<string>, l: string)
    ensures NonPhoneLines(lines + [l]) == NonPhoneLines(lines) + (if IsPhoneLine(l) then [] else [l])
    decreases |lines|
  {
    if lines == [] {
      assert lines + [l] == [l];
    } else {
      assert (lines + [l])[1..] == lines[1..] + [l];
      NonPhoneLinesAppend(lines[1..], l);
    }
  }

  lemma {:induction false} SpaceTerminatedAppend(lines: seq<string>, l: string)
    ensures SpaceTerminated(lines + [l]) == SpaceTerminated(lines) + l + " "
    decreases |lines|
  {
    if lines == [] {
      assert lines + [l] == [l];
    } else {
      assert (lines + [l])[1..] == lines[1..] + [l];
      SpaceTerminatedAppend(lines[1..], l);
    }
  }

  /** The street buffer holds exactly the non-phone lines, each followed by one space, in order. */
  lemma {:induction false} StreetBufferFolds(lines: seq<string>)
    ensures StreetBuffer(lines) == SpaceTerminated(NonPhoneLines(lines))
    decreases |lines|
  {
    if lines != [] {
      var n := |lines| - 1;
      var init, last := lines[..n], lines[n];
      assert lines == init + [last];
      StreetBufferFolds(init);
      NonPhoneLinesAppend(init, last);
      if !IsPhoneLine(last) {
        SpaceTerminatedAppend(NonPhoneLines(init), last);
        assert StreetBuffer(lines) == StreetBuffer(init) + (last + " ");
        assert SpaceTerminated(NonPhoneLines(init)) + last + " "
            == SpaceTerminated(NonPhoneLines(init)) + (last + " ");
      } else {
        assert NonPhoneLines(init) + [] == NonPhoneLines(init);
      }
    }
  }

  lemma {:induction false} StreetBufferNoBreak(lines: seq<string>)
    requires forall k :: 0 <= k < |lines| ==> '\n' !in lines[k]
    ensures '\n' !in StreetBuffer(lines)
    decreases |lines|
  {
    if lines != [] {
      StreetBufferNoBreak(lines[..|lines| - 1]);
    }
  }

  /**
   * The street address is the non-phone lines after the first, each
   * followed by a space, then stripped: no edge whitespace, no line break,
   * and empty when the block has only its type line.
   */
  lemma AddressStreet(blockText: string)
    ensures var items := AddressLines(blockText);
      var street := AddressOf(blockText).streetAddress;
      && street == Strip(SpaceTerminated(NonPhoneLines(items[1..])))
      && NoEdgeSpace(street)
      && '\n' !in street
      && (|items| == 1 ==> street == "")
  {
    var items := AddressLines(blockText);
    StreetBufferFolds(items[1..]);
    forall k | 0 <= k < |items[1..]| ensures '\n' !in items[1..][k] {
      if '\n' in items[1..][k] {
        StripAllAt(Split(blockText, '\n'), k + 1);
        StripChars(Split(blockText, '\n')[k + 1], '\n');
        assert false;
      }
    }
    StreetBufferNoBreak(items[1..]);
    if '\n' in AddressOf(blockText).streetAddress {
      StripChars(StreetBuffer(items[1..]), '\n');
    }
  }

  // ================================================================ company name

  /** `[s for s in children if isinstance(s, str)]`. */
  function TextChildren(children: seq<Child>): (texts: seq<string>)
    ensures |texts| > 0 <==> exists k :: 0 <= k < |children| && children[k].TextChild?
    ensures |texts| > 0 ==> exists k :: (0 <= k < |children| && children[k] == TextChild(texts[0])
      && forall j :: 0 <= j < k ==> children[j].ElementChild?)
  {
    if children == [] then []
    else
      var rest := TextChildren(children[1..]);
      if children[0].TextChild? then [children[0].text] + rest
      else
        assert forall k :: 1 <= k < |children| ==> children[k] == children[1..][k - 1];
        rest
  }

  /**
   * The company name: the first immediate string child of the name span,
   * stripped; nested elements are skipped, and a missing span or a span
   * without a string child is an error.
   */
  function CompanyName(nameSpan: Option<seq<Child>>): (r: Result<string, CompanyError>)
    ensures nameSpan.None? ==> r == Err(NameSpanMissing)
    ensures nameSpan.Some? ==>
      (r.Ok? <==> exists k :: 0 <= k < |nameSpan.value| && nameSpan.value[k].TextChild?)
    ensures nameSpan.Some? && r.Err? ==> r.error == NameTextMissing
    ensures r.Ok? ==> nameSpan.Some? && exists k :: (0 <= k < |nameSpan.value|
      && nameSpan.value[k].TextChild? && r.value == Strip(nameSpan.value[k].text)
      && forall j :: 0 <= j < k ==> nameSpan.value[j].ElementChild?)
    ensures r.Ok? ==> NoEdgeSpace(r.value)
  {
    match nameSpan
    case None => Err(NameSpanMissing)
    case Some(children) =>
      var texts := TextChildren(children);
      if |texts| == 0 then Err(NameTextMissing) else Ok(Strip(texts[0]))
  }

  // ================================================================ former names

  /** The record built from one former-name sentence, if the name-and-date pattern matches it. */
  function FormerNameOf(sentence: string): (r: Option<FormerName>)
    ensures r.Some? ==> IsDate(r.value.filingsThrough) && NoEdgeSpace(r.value.formerName)
  {
    match NameDateFrom(sentence, 0)
    case Some((name, date)) => Some(FormerName(Strip(name), date))
    case None => None
  }

  /**
   * A sentence yields a record exactly when the name-and-date pattern
   * matches it somewhere; the record is the stripped name group and the
   * date group of a match.
   */
  lemma FormerNameMeaning(sentence: string)
    ensures FormerNameOf(sentence).Some? ==> exists k: nat, p: nat, q: nat :: (GreatestNameDate(sentence, k, p, q)
      && FormerNameOf(sentence).value == FormerName(Strip(sentence[k + 9..p]), sentence[q..q + 10])
      && forall k': nat, p': nat, q': nat :: k' < k ==> !NameDateMatch(sentence, k', p', q'))
    ensures FormerNameOf(sentence).None? ==> forall k: nat, p: nat, q: nat :: !NameDateMatch(sentence, k, p, q)
  {
    var r := NameDateFrom(sentence, 0);
    if r.Some? {
      NameDateFromMatch(sentence, 0);
      var k: nat, p: nat, q: nat :| GreatestNameDate(sentence, k, p, q)
        && r.value == (sentence[k + 9..p], sentence[q..q + 10])
        && forall k': nat, p': nat, q': nat :: k' < k ==> !NameDateMatch(sentence, k', p', q');
      assert FormerNameOf(sentence).value == FormerName(Strip(sentence[k + 9..p]), sentence[q..q + 10]);
    }
  }

  /** The first sentence that carries no date, if any. */
  function FirstUndated(sentences: seq<string>): (r: Option<string>)
    ensures r.None? <==> forall k :: 0 <= k < |sentences| ==> FormerNameOf(sentences[k]).Some?
    ensures r.Some? ==> exists k :: (0 <= k < |sentences| && sentences[k] == r.value
      && FormerNameOf(sentences[k]).None?
      && forall j :: 0 <= j < k ==> FormerNameOf(sentences[j]).Some?)
  {
    if sentences == [] then None
    else if FormerNameOf(sentences[0]).None? then Some(sentences[0])
    else
      var r := FirstUndated(sentences[1..]);
      assert forall k :: 1 <= k < |sentences| ==> sentences[k] == sentences[1..][k - 1];
      r
  }

  /** The first undated sentence is the one at `i` when every earlier one is dated. */
  lemma {:induction false} FirstUndatedAt(sentences: seq<string>, i: nat)
    requires i < |sentences| && FormerNameOf(sentences[i]).None?
    requires forall k :: 0 <= k < i ==> FormerNameOf(sentences[k]).Some?
    ensures FirstUndated(sentences) == Some(sentences[i])
    decreases i
  {
    if i > 0 {
      assert forall k :: 0 <= k < i - 1 ==> sentences[1..][k] == sentences[k + 1];
      FirstUndatedAt(sentences[1..], i - 1);
    }
  }

  /** `names` holds one record per sentence, in order. */
  predicate NamesOf(names: seq<FormerName>, sentences: seq<string>) {
    && |names| == |sentences|
    && forall k :: 0 <= k < |sentences| ==> FormerNameOf(sentences[k]) == Some(names[k])
  }

  /**
   * The former names: one record per `formerly: … (filings through …)`
   * sentence of the block's text, in order; a sentence whose
   * name-and-date pattern does not match raises.
   */
  method GetFormerNames(identInfo: Option<IdentInfo>) returns (r: Result<seq<FormerName>, CompanyError>)
    ensures identInfo.None? ==> r == Err(IdentInfoMissing)
    ensures identInfo.Some? ==>
      var sentences := Sentences(identInfo.value.text);
      && (r.Ok? <==> FirstUndated(sentences).None?)
      && (r.Ok? ==> NamesOf(r.value, sentences))
      && (r.Err? ==> r.error == FilingsThroughMissing(FirstUndated(sentences).value))
  {
    if identInfo.None? {
      return Err(IdentInfoMissing);
    }
    var sentences := Sentences(identInfo.value.text);
    var formerNames: seq<FormerName> := [];
    for i := 0 to |sentences|
      invariant |formerNames| == i
      invariant forall k :: 0 <= k < i ==> FormerNameOf(sentences[k]) == Some(formerNames[k])
    {
      var matches := NameDateFrom(sentences[i], 0);
      if matches.None? {
        FirstUndatedAt(sentences, i);
        return Err(FilingsThroughMissing(sentences[i]));
      }
      var formerName := FormerName(Strip(matches.value.0), matches.value.1);
      formerNames := formerNames + [formerName];
    }
    return Ok(formerNames);
  }

  /** Every former name is stripped and every filings-through date is `YYYY-MM-DD`. */
  lemma FormerNamesShape(names: seq<FormerName>, sentences: seq<string>)
    requires NamesOf(names, sentences)
    ensures forall k :: 0 <= k < |names| ==>
      IsDate(names[k].filingsThrough) && NoEdgeSpace(names[k].formerName)
  {
    forall k | 0 <= k < |names|
      ensures IsDate(names[k].filingsThrough) && NoEdgeSpace(names[k].formerName)
    {
      assert FormerNameOf(sentences[k]) == Some(names[k]);
    }
  }

  // ================================================================ metadata

  /** `str(container)`: the block's markup, and `"None"` when the page has no such block. */
  function IdentMarkup(identInfo: Option<IdentInfo>): string
  {
    match identInfo
    case Some(info) => info.markup
    case None => "None"
  }

  /**
   * `g[0:2] + '-' + g[2:]`: a hyphen after the first two characters (after
   * all of them when there are fewer).
   */
  function FormatFiscalYearEnd(g: string): (r: string)
    ensures |r| == |g| + 1
    ensures |g| >= 2 ==> r[2] == '-' && r[..2] + r[3..] == g
  {
    var c := if |g| < 2 then |g| else 2;
    var r := g[..c] + "-" + g[c..];
    assert |g| >= 2 ==> r[..2] == g[..2] && r[3..] == g[2..];
    r
  }

  /** A `MM-DD` string: four digits with a hyphen in the middle. */
  predicate IsMonthDay(r: string) {
    && |r| == 5 && r[2] == '-'
    && IsDigit(r[0]) && IsDigit(r[1]) && IsDigit(r[3]) && IsDigit(r[4])
  }

  predicate AllWordChars(s: string) {
    forall k :: 0 <= k < |s| ==> IsWordChar(s[k])
  }

  /**
   * The four metadata extractions over the markup of the identification
   * block; `html.unescape` is the parameter `unescape`. The first pattern
   * (in the order SIC, location, incorporation, fiscal year) without a
   * match raises.
   */
  function CompanyMetadata(identInfo: Option<IdentInfo>, unescape: string -> string)
    : (r: Result<Metadata, CompanyError>)
    ensures var m := IdentMarkup(identInfo);
      r.Ok? <==> (&& FieldSearch(Sic, m).Some?
                  && FieldSearch(Location, m).Some?
                  && FieldSearch(IncorporationState, m).Some?
                  && FieldSearch(FiscalYearEnd, m).Some?)
    ensures var m := IdentMarkup(identInfo);
      r.Err? ==> r.error == MetadataMissing(
        if FieldSearch(Sic, m).None? then "sic"
        else if FieldSearch(Location, m).None? then "location"
        else if FieldSearch(IncorporationState, m).None? then "incorporation_state"
        else "fiscal_year_end")
    ensures r.Ok? ==> |r.value.sic| > 0 && AllDigits(r.value.sic)
    ensures r.Ok? ==> r.value.sicType == Strip(unescape(FieldSearch(Sic, IdentMarkup(identInfo)).value[1]))
    ensures r.Ok? ==> |r.value.location| > 0 && AllWordChars(r.value.location)
    ensures r.Ok? ==> |r.value.incorporationState| > 0 && AllWordChars(r.value.incorporationState)
    ensures r.Ok? ==> IsMonthDay(r.value.fiscalYearEnd)
    ensures var m := IdentMarkup(identInfo);
      r.Ok? ==> && r.value.sic == FieldSearch(Sic, m).value[0]
                && r.value.location == FieldSearch(Location, m).value[0]
                && r.value.incorporationState == FieldSearch(IncorporationState, m).value[0]
                && r.value.fiscalYearEnd[..2] + r.value.fiscalYearEnd[3..] == FieldSearch(FiscalYearEnd, m).value[0]
  {
    var m := IdentMarkup(identInfo);
    match (FieldSearch(Sic, m), FieldSearch(Location, m), FieldSearch(IncorporationState, m), FieldSearch(FiscalYearEnd, m))
    case (None, _, _, _) => Err(MetadataMissing(FieldName(Sic)))
    case (Some(_), None, _, _) => Err(MetadataMissing(FieldName(Location)))
    case (Some(_), Some(_), None, _) => Err(MetadataMissing(FieldName(IncorporationState)))
    case (Some(_), Some(_), Some(_), None) => Err(MetadataMissing(FieldName(FiscalYearEnd)))
    case (Some(sic), Some(location), Some(incorporation), Some(fiscal)) =>
      Ok(MetadataOf(sic, location, incorporation, fiscal, unescape))
  }

  /**
   * The metadata is extracted exactly when all four patterns match somewhere
   * in the block markup; otherwise the error names the first that does not.
   */
  lemma MetadataMatches(identInfo: Option<IdentInfo>, unescape: string -> string)
    ensures var m := IdentMarkup(identInfo);
      CompanyMetadata(identInfo, unescape).Ok? <==>
        (&& FieldMatches(Sic, m) && FieldMatches(Location, m)
         && FieldMatches(IncorporationState, m) && FieldMatches(FiscalYearEnd, m))
    ensures var m := IdentMarkup(identInfo);
      var r := CompanyMetadata(identInfo, unescape);
      r.Err? ==> r.error == MetadataMissing(
        if !FieldMatches(Sic, m) then "sic"
        else if !FieldMatches(Location, m) then "location"
        else if !FieldMatches(IncorporationState, m) then "incorporation_state"
        else "fiscal_year_end")
  {
    var m := IdentMarkup(identInfo);
    FieldSearchFound(Sic, m);
    FieldSearchFound(Location, m);
    FieldSearchFound(IncorporationState, m);
    FieldSearchFound(FiscalYearEnd, m);
  }

  /** The record filled from the groups of the four matches. */
  function MetadataOf(sic: seq<string>, location: seq<string>, incorporation: seq<string>,
                      fiscal: seq<string>, unescape: string -> string): (r: Metadata)
    requires GroupsShape(Sic, sic) && GroupsShape(Location, location)
    requires GroupsShape(IncorporationState, incorporation) && GroupsShape(FiscalYearEnd, fiscal)
    ensures |r.sic| > 0 && AllDigits(r.sic) && r.sicType == Strip(unescape(sic[1]))
    ensures |r.location| > 0 && AllWordChars(r.location)
    ensures |r.incorporationState| > 0 && AllWordChars(r.incorporationState)
    ensures IsMonthDay(r.fiscalYearEnd)
    ensures r.sic == sic[0] && r.location == location[0] && r.incorporationState == incorporation[0]
    ensures r.fiscalYearEnd[..2] + r.fiscalYearEnd[3..] == fiscal[0]
  {
    var loc, inc := Strip(location[0]), Strip(incorporation[0]);
    WordStripped(location[0]);
    WordStripped(incorporation[0]);
    var fy := FormatFiscalYearEnd(fiscal[0]);
    assert fy[0] == fiscal[0][0] && fy[1] == fiscal[0][1] && fy[3] == fiscal[0][2] && fy[4] == fiscal[0][3];
    Metadata(sic[0], Strip(unescape(sic[1])), loc, inc, fy)
  }

  /** `str.strip()` leaves a run of word characters alone. */
  lemma WordStripped(w: string)
    requires AllWordChars(w)
    ensures Strip(w) == w
  {
    StripNoEdgeSpace(w);
  }

  // ================================================================ the whole page

  /** The error the page parser raises first, in the order name, former names, metadata. */
  function PageError(page: CompanyPage, unescape: string -> string): Option<CompanyError>
  {
    if CompanyName(page.companyName).Err? then Some(CompanyName(page.companyName).error)
    else if page.identInfo.None? then Some(IdentInfoMissing)
    else if FirstUndated(Sentences(page.identInfo.value.text)).Some? then
      Some(FilingsThroughMissing(FirstUndated(Sentences(page.identInfo.value.text)).value))
    else if CompanyMetadata(page.identInfo, unescape).Err? then
      Some(CompanyMetadata(page.identInfo, unescape).error)
    else None
  }

  /**
   * `__parseHTML`: addresses, name, former names and metadata of one page;
   * the first stage that raises decides the error.
   */
  method ParseCompanyPage(page: CompanyPage, unescape: string -> string)
    returns (r: Result<CompanyInfo, CompanyError>)
    ensures r.Err? <==> PageError(page, unescape).Some?
    ensures r.Err? ==> r.error == PageError(page, unescape).value
    ensures r.Ok? ==> && page.identInfo.Some?
                      && r.value.addresses == MapSeq(AddressOf, page.mailers)
                      && CompanyName(page.companyName) == Ok(r.value.name)
                      && NamesOf(r.value.formerNames, Sentences(page.identInfo.value.text))
                      && CompanyMetadata(page.identInfo, unescape) == Ok(r.value.metadata)
  {
    var addresses := GetAddresses(page.mailers);
    var name := CompanyName(page.companyName);
    if name.Err? {
      return Err(name.error);
    }
    var formerNames := GetFormerNames(page.identInfo);
    if formerNames.Err? {
      return Err(formerNames.error);
    }
    var metadata := CompanyMetadata(page.identInfo, unescape);
    if metadata.Err? {
      return Err(metadata.error);
    }
    return Ok(CompanyInfo(addresses, name.value, formerNames.value, metadata.value));
  }
}
