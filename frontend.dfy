/**
 * The net/http service of main.go: `/validateSelector` reports whether a selector
 * matches anything on a page, `/scrape` returns one string per matched element,
 * chosen by the request's content type.
 */
module Frontend {
  import opened Wrappers
  import opened Page
  import opened GoStrings

  /** The decoded JSON body shared by both handlers. */
  datatype ScrapeRequest = ScrapeRequest(url: string, headers: map<string, string>, selector: string, contentType: string)

  /**
   * What one colly Visit of the request's URL reports: the elements the selector
   * matched, in the order the OnHTML callback saw them, and the error Visit returned.
   * Both may be present.
   */
  datatype Visit = Visit(matches: seq<Element>, err: Option<string>)

  /** A Go []string: nil until something is appended. JSON encodes nil as `null`. */
  datatype Slice = Nil | Items(elems: seq<string>)

  function Elems(s: Slice): seq<string> {
    match s
    case Nil => []
    case Items(xs) => xs
  }

  /** Go's append of one string. */
  function Append(s: Slice, x: string): Slice {
    Items(Elems(s) + [x])
  }

  /** `a` and `b` agree once ASCII letters are lower-cased. */
  predicate EqualIgnoringAsciiCase(a: string, b: string) {
    |a| == |b| && forall i :: 0 <= i < |a| ==> LowerChar(a[i]) == LowerChar(b[i])
  }

  /** colly's HTMLElement.Attr("href"): the raw value, or "" when there is no href. */
  function Href(e: Element): string {
    AttrValue(e, "href").GetOr("")
  }

  /** Lower-casing a string gives the lower-case word `t` exactly when it equals `t` up to case. */
  lemma LowerMatches(s: string, t: string)
    requires forall i :: 0 <= i < |t| ==> LowerChar(t[i]) == t[i]
    ensures ToLower(s) == t <==> EqualIgnoringAsciiCase(s, t)
  {
  }

  /**
   * The content-type switch of handleScrape: the `ChildText("title")` text for "title", the raw
   * href for "href", and the element's text for "text" and for every other type
   * ("", "link", ...), with the type compared regardless of case.
   */
  function Extract(contentType: string, e: Element): (r: string)
    ensures r == if EqualIgnoringAsciiCase(contentType, "title") then e.titleText
                 else if EqualIgnoringAsciiCase(contentType, "href") then Href(e)
                 else e.text
  {
    LowerMatches(contentType, "title");
    LowerMatches(contentType, "href");
    var ct := ToLower(contentType);
    if ct == "text" then e.text
    else if ct == "title" then e.titleText
    else if ct == "href" then Href(e)
    else e.text
  }

  /** scrapedData after the OnHTML callback has run once for each of `matches`. */
  function Scraped(contentType: string, matches: seq<Element>): Slice {
    if |matches| == 0 then Nil
    else Append(Scraped(contentType, matches[..|matches| - 1]), Extract(contentType, matches[|matches| - 1]))
  }

  /** One string per match, in match order; the slice stays nil exactly when nothing matched. */
  lemma {:induction false} ScrapedShape(contentType: string, matches: seq<Element>)
    ensures Scraped(contentType, matches).Nil? <==> |matches| == 0
    ensures |Elems(Scraped(contentType, matches))| == |matches|
    ensures forall i :: 0 <= i < |matches| ==> Elems(Scraped(contentType, matches))[i] == Extract(contentType, matches[i])
  {
    if |matches| > 0 {
      ScrapedShape(contentType, matches[..|matches| - 1]);
    }
  }

  /** The OnHTML callback of handleScrape, run once per match: append one string. */
  method CollectScraped(contentType: string, matches: seq<Element>) returns (scrapedData: Slice)
    ensures scrapedData == Scraped(contentType, matches)
  {
    scrapedData := Nil;
    var i := 0;
    while i < |matches|
      invariant 0 <= i <= |matches|
      invariant scrapedData == Scraped(contentType, matches[..i])
    {
      assert matches[..i + 1][..i] == matches[..i];
      scrapedData := Append(scrapedData, Extract(contentType, matches[i]));
      i := i + 1;
    }
    assert matches[..i] == matches;
  }

  /** The verdict of handleValidateSelector: something matched and Visit did not fail. */
  predicate Validated(v: Visit) {
    v.err.None? && |v.matches| > 0
  }

  /**
   * The `success` flag of handleValidateSelector: set by the callback on each match,
   * then cleared if Visit returned an error.
   */
  method ValidateSelector(v: Visit) returns (success: bool)
    ensures success <==> v.err.None? && |v.matches| > 0
  {
    success := false;
    var i := 0;
    while i < |v.matches|
      invariant 0 <= i <= |v.matches|
      invariant success <==> i > 0
    {
      success := true;
      i := i + 1;
    }
    if v.err.Some? {
      success := false;
    }
  }

  const MethodOptions := "OPTIONS"
  const MethodPost := "POST"

  const StatusOK := 200
  const StatusBadRequest := 400
  const StatusMethodNotAllowed := 405
  const StatusInternalServerError := 500

  /** What a handler writes, apart from the CORS headers every reply carries. */
  datatype Reply =
    | Preflight                                  // OPTIONS: headers only, no body
    | HttpError(status: int, message: string)    // http.Error
    | ValidateResponse(success: bool)            // JSON body, status 200
    | ScrapeResponse(data: Slice)                // JSON body, status 200

  function Status(r: Reply): int {
    if r.HttpError? then r.status else StatusOK
  }

  /** A handler's reply, and the request it visited, if it got as far as Visit. */
  datatype Exchange = Exchange(reply: Reply, visited: Option<ScrapeRequest>)

  /**
   * The checks both handlers make before creating a collector, in order. `body` is
   * the outcome of decoding the JSON body: None when the decoder returned an error.
   */
  datatype Gate = PassPreflight | Refuse(status: int, message: string) | Admit(req: ScrapeRequest)

  function GateRequest(verb: string, body: Option<ScrapeRequest>): Gate {
    if verb == MethodOptions then PassPreflight
    else if verb != MethodPost then Refuse(StatusMethodNotAllowed, "Method not allowed")
    else if body.None? then Refuse(StatusBadRequest, "Bad request")
    else Admit(body.value)
  }

  /**
   * handleValidateSelector, with `visit` standing for the collector's Visit of the
   * request. A failed visit is reported as success = false with status 200.
   */
  function HandleValidateSelector(verb: string, body: Option<ScrapeRequest>, visit: ScrapeRequest -> Visit): (x: Exchange)
    ensures x.reply.Preflight? <==> verb == MethodOptions
    ensures Status(x.reply) == StatusMethodNotAllowed <==> verb != MethodOptions && verb != MethodPost
    ensures verb != MethodOptions && verb != MethodPost ==> x.reply == HttpError(StatusMethodNotAllowed, "Method not allowed")
    ensures Status(x.reply) == StatusBadRequest <==> verb == MethodPost && body.None?
    ensures verb == MethodPost && body.None? ==> x.reply == HttpError(StatusBadRequest, "Bad request")
    ensures x.visited.Some? <==> verb == MethodPost && body.Some?
    ensures x.visited.Some? ==>
      x.visited == body && Status(x.reply) == StatusOK && x.reply.ValidateResponse? &&
      (x.reply.success <==> visit(body.value).err.None? && |visit(body.value).matches| > 0)
  {
    match GateRequest(verb, body)
    case PassPreflight => Exchange(Preflight, None)
    case Refuse(status, message) => Exchange(HttpError(status, message), None)
    case Admit(req) => Exchange(ValidateResponse(Validated(visit(req))), Some(req))
  }

  /**
   * handleScrape, with `visit` standing for the collector's Visit of the request.
   * A failed visit gives 500 and no data, whatever was collected before it failed.
   */
  function HandleScrape(verb: string, body: Option<ScrapeRequest>, visit: ScrapeRequest -> Visit): (x: Exchange)
    ensures x.reply.Preflight? <==> verb == MethodOptions
    ensures Status(x.reply) == StatusMethodNotAllowed <==> verb != MethodOptions && verb != MethodPost
    ensures verb != MethodOptions && verb != MethodPost ==> x.reply == HttpError(StatusMethodNotAllowed, "Method not allowed")
    ensures Status(x.reply) == StatusBadRequest <==> verb == MethodPost && body.None?
    ensures verb == MethodPost && body.None? ==> x.reply == HttpError(StatusBadRequest, "Bad request")
    ensures x.visited.Some? <==> verb == MethodPost && body.Some?
    ensures x.visited.Some? ==>
      x.visited == body &&
      (visit(body.value).err.Some? <==> Status(x.reply) == StatusInternalServerError) &&
      (visit(body.value).err.Some? ==> x.reply == HttpError(StatusInternalServerError, "Failed to visit URL"))
    ensures x.visited.Some? && visit(body.value).err.None? ==>
      var v, ct := visit(body.value), body.value.contentType;
      x.reply.ScrapeResponse? &&
      (x.reply.data.Nil? <==> |v.matches| == 0) &&
      |Elems(x.reply.data)| == |v.matches| &&
      forall i :: 0 <= i < |v.matches| ==> Elems(x.reply.data)[i] == Extract(ct, v.matches[i])
  {
    match GateRequest(verb, body)
    case PassPreflight => Exchange(Preflight, None)
    case Refuse(status, message) => Exchange(HttpError(status, message), None)
    case Admit(req) =>
      var v := visit(req);
      if v.err.Some? then
        Exchange(HttpError(StatusInternalServerError, "Failed to visit URL"), Some(req))
      else
        ScrapedShape(req.contentType, v.matches);
        Exchange(ScrapeResponse(Scraped(req.contentType, v.matches)), Some(req))
  }

  /** Content types that agree once lower-cased select the same output, whatever they are. */
  lemma CaseInsensitive(a: string, b: string, e: Element)
    requires ToLower(a) == ToLower(b)
    ensures Extract(a, e) == Extract(b, e)
  {
  }

  /**
   * Case is compared on ASCII letters only: "T\U{0130}TLE", with a dotted capital I, is not
   * "title" here and selects the element text.
   */
  lemma DottedCapitalIGivesText(e: Element)
    ensures Extract("T\U{0130}TLE", e) == e.text
  {
    assert !EqualIgnoringAsciiCase("T\U{0130}TLE", "title") by {
      assert LowerChar("T\U{0130}TLE"[1]) != LowerChar("title"[1]);
    }
  }

  /** "TEXT", "Text" and "text" all select the element text. */
  lemma TextIgnoresCase(e: Element)
    ensures Extract("TEXT", e) == Extract("Text", e) == Extract("text", e) == e.text
  {
    assert !EqualIgnoringAsciiCase("text", "title") by { assert LowerChar("text"[1]) != LowerChar("title"[1]); }
    assert !EqualIgnoringAsciiCase("Text", "title") by { assert LowerChar("Text"[1]) != LowerChar("title"[1]); }
    assert !EqualIgnoringAsciiCase("TEXT", "title") by { assert LowerChar("TEXT"[1]) != LowerChar("title"[1]); }
    assert !EqualIgnoringAsciiCase("text", "href") by { assert LowerChar("text"[0]) != LowerChar("href"[0]); }
    assert !EqualIgnoringAsciiCase("Text", "href") by { assert LowerChar("Text"[0]) != LowerChar("href"[0]); }
    assert !EqualIgnoringAsciiCase("TEXT", "href") by { assert LowerChar("TEXT"[0]) != LowerChar("href"[0]); }
  }

  /** "" and "link" are not recognised and fall back to the element text. */
  lemma UnknownTypesGiveText(e: Element)
    ensures Extract("", e) == Extract("link", e) == e.text
  {
  }

  /** "Title" and "HREF" are recognised regardless of case. */
  lemma TitleAndHrefIgnoreCase(e: Element)
    ensures Extract("Title", e) == e.titleText && Extract("HREF", e) == Href(e)
  {
  }

  /** An element without an href attribute yields "" under "href": the value is never resolved. */
  lemma HrefIsRaw(contentType: string, e: Element)
    requires EqualIgnoringAsciiCase(contentType, "href")
    ensures Extract(contentType, e) == (match FindAttr(e.attrs, "href") case Some(k) => e.attrs[k].val case None => "")
  {
  }
}
