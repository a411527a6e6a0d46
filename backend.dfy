/**
 * The gin service of backend/main.go: `/scrape` configures a collector from the
 * request (a proxy, a user agent and a cookie string, each picked at random from its
 * list when the list is non-empty), then, for the page body, turns every element
 * matched by every query into at most one descriptive record (none for an element with
 * no text and no attributes).
 */
module Backend {
  import opened Wrappers
  import opened Page
  import opened GoStrings

  /** The JSON body of `/scrape`. */
  datatype ScrapeRequest = ScrapeRequest(
    url: string,
    queries: seq<string>,
    proxies: seq<string>,
    cookies: seq<string>,
    userAgents: seq<string>)

  /** The outcome of ShouldBindJSON: the binding error's text, or the request. */
  datatype Binding = BindError(message: string) | Bound(req: ScrapeRequest)

  // ---------------------------------------------------------------------------
  // Request configuration

  /** The result of rand.Intn for each list; only the ones for non-empty lists are used. */
  datatype Picks = Picks(proxy: nat, userAgent: nat, cookie: nat)

  /** Each index is one rand.Intn(len(list)) can return, for every non-empty list. */
  predicate PicksFit(req: ScrapeRequest, p: Picks) {
    (|req.proxies| > 0 ==> p.proxy < |req.proxies|) &&
    (|req.userAgents| > 0 ==> p.userAgent < |req.userAgents|) &&
    (|req.cookies| > 0 ==> p.cookie < |req.cookies|)
  }

  /**
   * `list[rand.Intn(len(list))]` behind `if len(list) > 0`: nothing for an empty list,
   * otherwise an entry of the list, and the only one when there is just one.
   */
  function Pick(list: seq<string>, i: nat): (r: Option<string>)
    requires |list| > 0 ==> i < |list|
    ensures r.None? <==> |list| == 0
    ensures r.Some? ==> r.value in list
    ensures |list| == 1 ==> r == Some(list[0])
  {
    if |list| == 0 then None else Some(list[i])
  }

  /**
   * The Cookie values the callbacks registered for `segments` will set, in order:
   * parts[0] + "=" + parts[1] for each segment that SplitN(segment, "=", 2) cuts in two.
   */
  function PairsOf(segments: seq<string>): seq<string> {
    if |segments| == 0 then []
    else
      var parts := SplitN2(segments[|segments| - 1], '=');
      PairsOf(segments[..|segments| - 1]) + (if |parts| == 2 then [parts[0] + "=" + parts[1]] else [])
  }

  /** The Cookie values registered for one cookie string. */
  function CookiePairs(cookieStr: string): seq<string> {
    PairsOf(Split(cookieStr, ';'))
  }

  /** The segments that contain `=`, in their order. */
  function WithEquals(segments: seq<string>): seq<string> {
    if |segments| == 0 then []
    else WithEquals(segments[..|segments| - 1]) + (if '=' in segments[|segments| - 1] then [segments[|segments| - 1]] else [])
  }

  /**
   * Re-joining the two parts of SplitN gives the segment back, so the registered values
   * are exactly the segments that contain `=`, untrimmed and in order.
   */
  lemma {:induction false} PairsAreSegments(segments: seq<string>)
    ensures PairsOf(segments) == WithEquals(segments)
  {
    if |segments| > 0 {
      PairsAreSegments(segments[..|segments| - 1]);
    }
  }

  /**
   * Each registered value is a `;`-free piece of the cookie string that contains `=`;
   * SplitN then reads its name as the text before the first `=` and its value as
   * everything after, further `=` included.
   */
  lemma CookiePairShape(cookieStr: string, k: nat)
    requires k < |CookiePairs(cookieStr)|
    ensures var p := CookiePairs(cookieStr)[k];
      '=' in p && ';' !in p && p in Split(cookieStr, ';') &&
      SplitN2(p, '=')[0] + "=" + SplitN2(p, '=')[1] == p
  {
    var segs := Split(cookieStr, ';');
    PairsAreSegments(segs);
    WithEqualsIn(segs, k);
  }

  /** An element of WithEquals is an element of the segments that contains `=`. */
  lemma {:induction false} WithEqualsIn(segments: seq<string>, k: nat)
    requires k < |WithEquals(segments)|
    ensures WithEquals(segments)[k] in segments && '=' in WithEquals(segments)[k]
  {
    var n := |segments|;
    var front := WithEquals(segments[..n - 1]);
    if k < |front| {
      WithEqualsIn(segments[..n - 1], k);
      assert front[k] in segments[..n - 1];
    } else {
      assert WithEquals(segments)[k] == segments[n - 1];
    }
  }

  /** The request headers after the Cookie callbacks ran in registration order. */
  method RunCookieCallbacks(headers: map<string, string>, pairs: seq<string>) returns (result: map<string, string>)
    ensures |pairs| == 0 ==> result == headers
    ensures |pairs| > 0 ==> result == headers["Cookie" := pairs[|pairs| - 1]]
  {
    result := headers;
    var i := 0;
    while i < |pairs|
      invariant 0 <= i <= |pairs|
      invariant i == 0 ==> result == headers
      invariant i > 0 ==> result == headers["Cookie" := pairs[i - 1]]
    {
      result := result["Cookie" := pairs[i]];
      i := i + 1;
    }
  }

  /** The cookie loop: one OnRequest callback per segment that SplitN cuts in two. */
  method RegisterCookies(cookieStr: string) returns (callbacks: seq<string>)
    ensures callbacks == CookiePairs(cookieStr)
  {
    var cookies := Split(cookieStr, ';');
    callbacks := [];
    var i := 0;
    while i < |cookies|
      invariant 0 <= i <= |cookies|
      invariant callbacks == PairsOf(cookies[..i])
    {
      assert cookies[..i + 1][..i] == cookies[..i];
      var parts := SplitN2(cookies[i], '=');
      if |parts| == 2 {
        callbacks := callbacks + [parts[0] + "=" + parts[1]];
      }
      i := i + 1;
    }
    assert cookies[..i] == cookies;
  }

  /**
   * How the collector is configured before the visit: absent entries keep colly's
   * defaults, and `cookieCallbacks` are the Cookie values set, in order, on each request.
   */
  datatype Config = Config(proxy: Option<string>, userAgent: Option<string>, cookieCallbacks: seq<string>)

  function Configure(req: ScrapeRequest, p: Picks): (c: Config)
    requires PicksFit(req, p)
    ensures c.proxy.Some? <==> |req.proxies| > 0
    ensures c.proxy.Some? ==> c.proxy.value == req.proxies[p.proxy]
    ensures c.userAgent.Some? <==> |req.userAgents| > 0
    ensures c.userAgent.Some? ==> c.userAgent.value == req.userAgents[p.userAgent]
    ensures |req.cookies| == 0 ==> c.cookieCallbacks == []
    ensures |req.cookies| > 0 ==> c.cookieCallbacks == WithEquals(Split(req.cookies[p.cookie], ';'))
  {
    var cookies :=
      if |req.cookies| > 0 then
        PairsAreSegments(Split(req.cookies[p.cookie], ';'));
        CookiePairs(req.cookies[p.cookie])
      else [];
    Config(Pick(req.proxies, p.proxy), Pick(req.userAgents, p.userAgent), cookies)
  }

  /**
   * The headers of a request sent by the configured collector: the Cookie callbacks
   * run in order, so the last `=`-holding segment of the drawn cookie string is the
   * Cookie header, and no Cookie is set when there is no such segment.
   */
  method ConfiguredHeaders(headers: map<string, string>, req: ScrapeRequest, p: Picks) returns (result: map<string, string>)
    requires PicksFit(req, p)
    ensures |req.cookies| == 0 ==> result == headers
    ensures |req.cookies| > 0 ==>
      var pairs := WithEquals(Split(req.cookies[p.cookie], ';'));
      (|pairs| == 0 ==> result == headers) &&
      (|pairs| > 0 ==> result == headers["Cookie" := pairs[|pairs| - 1]])
    ensures "Cookie" !in headers && "Cookie" in result ==>
      |req.cookies| > 0 && var segments := Split(req.cookies[p.cookie], ';');
      result["Cookie"] in segments && '=' in result["Cookie"]
  {
    var config := Configure(req, p);
    result := RunCookieCallbacks(headers, config.cookieCallbacks);
    if |req.cookies| > 0 {
      var segments := Split(req.cookies[p.cookie], ';');
      assert config.cookieCallbacks == WithEquals(segments);
      if |config.cookieCallbacks| > 0 {
        WithEqualsIn(segments, |config.cookieCallbacks| - 1);
        assert result["Cookie"] == config.cookieCallbacks[|config.cookieCallbacks| - 1];
      }
    }
  }

  // ---------------------------------------------------------------------------
  // Records

  function TextPart(text: string): string {
    if text != "" then "Text: " + text + " " else ""
  }

  function AttrPart(a: Attribute): string {
    Title(a.key) + ": " + a.val + " "
  }

  /** The attribute loop's contribution, in attribute order. */
  function AttrsPart(attrs: seq<Attribute>): string {
    if |attrs| == 0 then "" else AttrsPart(attrs[..|attrs| - 1]) + AttrPart(attrs[|attrs| - 1])
  }

  /** The special case for links: a second `Href: ` entry when the element has an href. */
  function HrefPart(e: Element): string {
    match AttrValue(e, "href")
    case Some(h) => "Href: " + h + " "
    case None => ""
  }

  /** `item` before TrimSpace. */
  function RawItem(e: Element): string {
    TextPart(e.text) + (AttrsPart(e.attrs) + HrefPart(e))
  }

  /** The record one matched element contributes to `data`, if any. */
  function Record(e: Element): Option<string> {
    var item := TrimSpace(RawItem(e));
    if item != "" then Some(item) else None
  }

  lemma {:induction false} AttrsPartConcat(a: seq<Attribute>, b: seq<Attribute>)
    ensures AttrsPart(a + b) == AttrsPart(a) + AttrsPart(b)
  {
    if |b| > 0 {
      var n := |b|;
      var last := AttrPart(b[n - 1]);
      assert (a + b)[..|a + b| - 1] == a + b[..n - 1];
      assert (a + b)[|a + b| - 1] == b[n - 1];
      assert AttrsPart(a + b) == AttrsPart(a + b[..n - 1]) + last;
      AttrsPartConcat(a, b[..n - 1]);
      AppendAssoc(AttrsPart(a), AttrsPart(b[..n - 1]), last);
    } else {
      assert a + b == a;
    }
  }

  /**
   * A matched element yields a record exactly when it has text or at least one
   * attribute; the record is then non-empty and starts and ends with no white space.
   */
  lemma RecordKept(e: Element)
    ensures Record(e).Some? <==> e.text != "" || |e.attrs| > 0
    ensures Record(e).Some? ==> Record(e).value != "" && Trimmed(Record(e).value)
  {
    var t, rest := TextPart(e.text), AttrsPart(e.attrs) + HrefPart(e);
    if e.text != "" {
      assert (t + rest)[0] == t[0] == 'T';
      NonSpaceKept(t + rest, 0);
    } else if |e.attrs| > 0 {
      var i := AttrsPartColon(e.attrs);
      assert t == "";
      assert (t + rest)[i] == rest[i] == AttrsPart(e.attrs)[i];
      NonSpaceKept(t + rest, i);
    } else {
      assert FindAttr(e.attrs, "href").None?;
      assert t + rest == "";
    }
  }

  /** A string with a character that is not white space does not trim to "". */
  lemma NonSpaceKept(s: string, i: nat)
    requires i < |s| && !IsSpace(s[i])
    ensures TrimSpace(s) != ""
  {
  }

  /** Each attribute writes a `:` after its name, so a non-empty attribute list writes one. */
  lemma AttrsPartColon(attrs: seq<Attribute>) returns (i: nat)
    requires |attrs| > 0
    ensures i < |AttrsPart(attrs)| && AttrsPart(attrs)[i] == ':'
  {
    var n := |attrs|;
    var pre, part := AttrsPart(attrs[..n - 1]), AttrPart(attrs[n - 1]);
    var name := Title(attrs[n - 1].key);
    assert part == name + ": " + attrs[n - 1].val + " ";
    assert part[|name|] == ':';
    i := |pre| + |name|;
    assert AttrsPart(attrs) == pre + part;
    assert (pre + part)[i] == part[|name|];
  }

  /** Title("href") is "Href", the name the attribute loop gives an href. */
  lemma TitleHref()
    ensures Title("href") == "Href"
  {
  }

  /**
   * An element with an href says `Href: <value> ` twice: once at the href's place in
   * the attribute loop and once more at the end.
   */
  lemma HrefTwice(e: Element, k: nat)
    requires FindAttr(e.attrs, "href") == Some(k)
    ensures var w := "Href: " + e.attrs[k].val + " ";
      RawItem(e) == TextPart(e.text) + AttrsPart(e.attrs[..k]) + w + AttrsPart(e.attrs[k + 1..]) + w
  {
    var w := "Href: " + e.attrs[k].val + " ";
    var t, a1, a2 := TextPart(e.text), AttrsPart(e.attrs[..k]), AttrsPart(e.attrs[k + 1..]);
    HrefAttrPart(e.attrs[k]);
    AttrsPartAround(e.attrs, k);
    assert HrefPart(e) == w;
    assert RawItem(e) == t + ((a1 + w + a2) + w);
    AppendAssoc(t, a1 + w + a2, w);
    AppendAssoc(t, a1 + w, a2);
    AppendAssoc(t, a1, w);
  }

  /** The attribute loop writes an `href` attribute as "Href: <value> ". */
  lemma HrefAttrPart(a: Attribute)
    requires a.key == "href"
    ensures AttrPart(a) == "Href: " + a.val + " "
  {
  }

  lemma AttrsPartAround(attrs: seq<Attribute>, k: nat)
    requires k < |attrs|
    ensures AttrsPart(attrs) == AttrsPart(attrs[..k]) + AttrPart(attrs[k]) + AttrsPart(attrs[k + 1..])
  {
    assert attrs == attrs[..k + 1] + attrs[k + 1..];
    AttrsPartConcat(attrs[..k + 1], attrs[k + 1..]);
    AttrsPartStep(attrs, k);
  }

  /** The per-element loop body: build `item`, then trim it. */
  method BuildItem(e: Element) returns (item: string)
    ensures item == TrimSpace(RawItem(e))
  {
    item := "";
    if e.text != "" {
      item := item + ("Text: " + e.text + " ");
    }
    var attrs := e.attrs;
    var i := 0;
    while i < |attrs|
      invariant 0 <= i <= |attrs|
      invariant item == TextPart(e.text) + AttrsPart(attrs[..i])
    {
      item := item + (Title(attrs[i].key) + ": " + attrs[i].val + " ");
      AttrsPartStep(attrs, i);
      AppendAssoc(TextPart(e.text), AttrsPart(attrs[..i]), AttrPart(attrs[i]));
      i := i + 1;
    }
    assert attrs[..i] == attrs;
    var href := AttrValue(e, "href");
    if href.Some? {
      item := item + ("Href: " + href.value + " ");
    }
    AppendAssoc(TextPart(e.text), AttrsPart(attrs), HrefPart(e));
    assert item == RawItem(e);
    item := TrimSpace(item);
  }

  lemma AttrsPartStep(attrs: seq<Attribute>, i: nat)
    requires i < |attrs|
    ensures AttrsPart(attrs[..i + 1]) == AttrsPart(attrs[..i]) + AttrPart(attrs[i])
  {
    assert attrs[..i + 1][..i] == attrs[..i];
  }

  lemma AppendAssoc<T>(a: seq<T>, b: seq<T>, c: seq<T>)
    ensures (a + b) + c == a + (b + c)
  {
  }

  /** The matches of each query inside one body element, as goquery's Find returns them. */
  type Body = map<string, seq<Element>>

  function Find(body: Body, query: string): seq<Element> {
    if query in body then body[query] else []
  }

  /** The records of a run of matches, in match order. */
  function MatchRecords(matches: seq<Element>): seq<string> {
    if |matches| == 0 then []
    else
      MatchRecords(matches[..|matches| - 1]) + RecordOf(matches[|matches| - 1])
  }

  /** The records of one body callback: query by query, match by match. */
  function QueryRecords(body: Body, queries: seq<string>): seq<string> {
    if |queries| == 0 then []
    else QueryRecords(body, queries[..|queries| - 1]) + MatchRecords(Find(body, queries[|queries| - 1]))
  }

  /** `data` after the body callback ran for each body element. */
  function AllRecords(queries: seq<string>, bodies: seq<Body>): seq<string> {
    if |bodies| == 0 then []
    else AllRecords(queries, bodies[..|bodies| - 1]) + QueryRecords(bodies[|bodies| - 1], queries)
  }

  /** How many of `matches` have text or an attribute. */
  function Described(matches: seq<Element>): nat {
    if |matches| == 0 then 0
    else
      var e := matches[|matches| - 1];
      Described(matches[..|matches| - 1]) + (if e.text != "" || |e.attrs| > 0 then 1 else 0)
  }

  /** The number of matches over all queries of one body. */
  function TotalMatches(body: Body, queries: seq<string>): nat {
    if |queries| == 0 then 0
    else TotalMatches(body, queries[..|queries| - 1]) + |Find(body, queries[|queries| - 1])|
  }

  /** Every record is non-empty and trimmed. */
  predicate AllTrimmed(records: seq<string>) {
    forall k :: 0 <= k < |records| ==> records[k] != "" && Trimmed(records[k])
  }

  /**
   * One record per match that has text or an attribute, none for the others; all
   * records are non-empty and trimmed.
   */
  lemma {:induction false} MatchRecordsFacts(matches: seq<Element>)
    ensures |MatchRecords(matches)| == Described(matches) <= |matches|
    ensures AllTrimmed(MatchRecords(matches))
  {
    if |matches| > 0 {
      var n := |matches|;
      var e := matches[n - 1];
      MatchRecordsFacts(matches[..n - 1]);
      var tail := RecordOf(e);
      assert MatchRecords(matches) == MatchRecords(matches[..n - 1]) + tail;
      AllTrimmedConcat(MatchRecords(matches[..n - 1]), tail);
    }
  }

  /** The records one element contributes: its record, or nothing. */
  function RecordOf(e: Element): (rs: seq<string>)
    ensures |rs| == (if e.text != "" || |e.attrs| > 0 then 1 else 0)
    ensures AllTrimmed(rs)
  {
    RecordKept(e);
    match Record(e) case Some(r) => [r] case None => []
  }

  lemma AllTrimmedConcat(a: seq<string>, b: seq<string>)
    requires AllTrimmed(a) && AllTrimmed(b)
    ensures AllTrimmed(a + b)
  {
  }

  /** At most one record per match; all records non-empty and trimmed. */
  lemma {:induction false} QueryRecordsFacts(body: Body, queries: seq<string>)
    ensures |QueryRecords(body, queries)| <= TotalMatches(body, queries)
    ensures AllTrimmed(QueryRecords(body, queries))
  {
    if |queries| > 0 {
      QueryRecordsFacts(body, queries[..|queries| - 1]);
      MatchRecordsFacts(Find(body, queries[|queries| - 1]));
    }
  }

  /** Records follow query order: the records of `q1 + q2` are those of `q1`, then those of `q2`. */
  lemma {:induction false} QueryOrder(body: Body, q1: seq<string>, q2: seq<string>)
    ensures QueryRecords(body, q1 + q2) == QueryRecords(body, q1) + QueryRecords(body, q2)
  {
    if |q2| == 0 {
      assert q1 + q2 == q1;
    } else {
      var n := |q2|;
      var last := MatchRecords(Find(body, q2[n - 1]));
      assert (q1 + q2)[..|q1 + q2| - 1] == q1 + q2[..n - 1];
      assert (q1 + q2)[|q1 + q2| - 1] == q2[n - 1];
      assert QueryRecords(body, q1 + q2) == QueryRecords(body, q1 + q2[..n - 1]) + last;
      QueryOrder(body, q1, q2[..n - 1]);
      AppendAssoc(QueryRecords(body, q1), QueryRecords(body, q2[..n - 1]), last);
    }
  }

  /** With no queries, or none matching, `data` stays the empty list. */
  lemma {:induction false} NoMatchesNoData(queries: seq<string>, bodies: seq<Body>)
    requires forall b, q :: 0 <= b < |bodies| && q in queries ==> Find(bodies[b], q) == []
    ensures AllRecords(queries, bodies) == []
  {
    if |bodies| > 0 {
      NoMatchesNoData(queries, bodies[..|bodies| - 1]);
      NoMatchesQueries(bodies[|bodies| - 1], queries);
    }
  }

  lemma {:induction false} NoMatchesQueries(body: Body, queries: seq<string>)
    requires forall q :: q in queries ==> Find(body, q) == []
    ensures QueryRecords(body, queries) == []
  {
    if |queries| > 0 {
      NoMatchesQueries(body, queries[..|queries| - 1]);
    }
  }

  /** Records of all bodies are non-empty and trimmed. */
  lemma {:induction false} AllRecordsTrimmed(queries: seq<string>, bodies: seq<Body>)
    ensures AllTrimmed(AllRecords(queries, bodies))
  {
    if |bodies| > 0 {
      AllRecordsTrimmed(queries, bodies[..|bodies| - 1]);
      QueryRecordsFacts(bodies[|bodies| - 1], queries);
    }
  }

  lemma MatchRecordsStep(matches: seq<Element>, m: nat)
    requires m < |matches|
    ensures MatchRecords(matches[..m + 1]) == MatchRecords(matches[..m]) + RecordOf(matches[m])
  {
    assert matches[..m + 1][..m] == matches[..m];
  }

  lemma RecordOfItem(e: Element, item: string)
    requires item == TrimSpace(RawItem(e))
    ensures RecordOf(e) == if item != "" then [item] else []
  {
  }

  lemma QueryRecordsStep(body: Body, queries: seq<string>, q: nat)
    requires q < |queries|
    ensures QueryRecords(body, queries[..q + 1]) == QueryRecords(body, queries[..q]) + MatchRecords(Find(body, queries[q]))
  {
    assert queries[..q + 1][..q] == queries[..q];
  }

  /** The Each callback over one query's matches: append the record of every match to `data`. */
  method OnMatches(matches: seq<Element>, data0: seq<string>) returns (data: seq<string>)
    ensures data == data0 + MatchRecords(matches)
  {
    data := data0;
    var m := 0;
    assert matches[..0] == [];
    while m < |matches|
      invariant 0 <= m <= |matches|
      invariant data == data0 + MatchRecords(matches[..m])
    {
      var item := BuildItem(matches[m]);
      OnMatchesStep(data0, matches, m, item);
      if item != "" {
        data := data + [item];
      }
      m := m + 1;
    }
    assert matches[..m] == matches;
  }

  lemma OnMatchesStep(data0: seq<string>, matches: seq<Element>, m: nat, item: string)
    requires m < |matches| && item == TrimSpace(RawItem(matches[m]))
    ensures data0 + MatchRecords(matches[..m + 1]) ==
      data0 + MatchRecords(matches[..m]) + (if item != "" then [item] else [])
  {
    MatchRecordsStep(matches, m);
    RecordOfItem(matches[m], item);
    AppendAssoc(data0, MatchRecords(matches[..m]), RecordOf(matches[m]));
  }

  /** The OnHTML("body") callback: append the records of every query's matches to `data`. */
  method OnBody(queries: seq<string>, body: Body, data0: seq<string>) returns (data: seq<string>)
    ensures data == data0 + QueryRecords(body, queries)
  {
    data := data0;
    var q := 0;
    while q < |queries|
      invariant 0 <= q <= |queries|
      invariant data == data0 + QueryRecords(body, queries[..q])
    {
      var matches := Find(body, queries[q]);
      data := OnMatches(matches, data);
      QueryRecordsStep(body, queries, q);
      AppendAssoc(data0, QueryRecords(body, queries[..q]), MatchRecords(matches));
      q := q + 1;
    }
    assert queries[..q] == queries;
  }

  /** `data` from `[]{}` through the body callback of every body element. */
  method CollectRecords(queries: seq<string>, bodies: seq<Body>) returns (data: seq<string>)
    ensures data == AllRecords(queries, bodies)
  {
    data := [];
    var b := 0;
    assert bodies[..0] == [];
    while b < |bodies|
      invariant 0 <= b <= |bodies|
      invariant data == AllRecords(queries, bodies[..b])
    {
      data := OnBody(queries, bodies[b], data);
      AllRecordsStep(queries, bodies, b);
      b := b + 1;
    }
    assert bodies[..b] == bodies;
  }

  lemma AllRecordsStep(queries: seq<string>, bodies: seq<Body>, b: nat)
    requires b < |bodies|
    ensures AllRecords(queries, bodies[..b + 1]) == AllRecords(queries, bodies[..b]) + QueryRecords(bodies[b], queries)
  {
    assert bodies[..b + 1][..b] == bodies[..b];
  }

  // ---------------------------------------------------------------------------
  // The handler

  /** What one Visit reports: the body elements' query matches, and Visit's error. */
  datatype Visit = Visit(bodies: seq<Body>, err: Option<string>)

  datatype Reply =
    | BadRequest(error: string)     // 400 {"error": ...}
    | ServerError(error: string)    // 500 {"error": ...}
    | Ok(data: seq<string>)         // 200 {"data": [...]}

  function Status(r: Reply): int {
    match r
    case BadRequest(_) => 400
    case ServerError(_) => 500
    case Ok(_) => 200
  }

  /** The URL a handler visited and the configuration it visited it with. */
  datatype Visited = Visited(url: string, config: Config)

  datatype Exchange = Exchange(reply: Reply, visited: Option<Visited>)

  /**
   * The `/scrape` handler; `picks` stands for the rand.Intn results and `visit` for the
   * collector's Visit of a URL under a configuration.
   */
  function HandleScrape(binding: Binding, picks: Picks, visit: (string, Config) -> Visit): (x: Exchange)
    requires binding.Bound? ==> PicksFit(binding.req, picks)
    ensures binding.BindError? ==> x.reply == BadRequest(binding.message) && x.visited.None?
    ensures binding.Bound? ==>
      var req := binding.req;
      var c := Configure(req, picks);
      var v := visit(req.url, c);
      x.visited == Some(Visited(req.url, c)) &&
      (v.err.Some? ==> x.reply == ServerError(v.err.value)) &&
      (v.err.None? ==> x.reply.Ok? && AllTrimmed(x.reply.data) && x.reply.data == AllRecords(req.queries, v.bodies))
    ensures Status(x.reply) == 400 <==> binding.BindError?
  {
    match binding
    case BindError(message) => Exchange(BadRequest(message), None)
    case Bound(req) =>
      var c := Configure(req, picks);
      var v := visit(req.url, c);
      if v.err.Some? then
        Exchange(ServerError(v.err.value), Some(Visited(req.url, c)))
      else
        AllRecordsTrimmed(req.queries, v.bodies);
        Exchange(Ok(AllRecords(req.queries, v.bodies)), Some(Visited(req.url, c)))
  }
}
