# CollySpider extraction rules in Dafny

CollySpider is a small scraping service written in Go. It has two entry points:

- **main.go**, a `net/http` server with two handlers:
  - `/validateSelector` answers whether a CSS selector matches anything on a page;
  - `/scrape` returns one string per matched element, picked by the request's `contentType`.
- **backend/main.go**, a gin server with one `/scrape` handler. It configures a colly collector from the request: a proxy, a user agent and a cookie string, each picked at random from its list when the list is non-empty. It then turns every element matched by every query into at most one descriptive record (none for an element with no text and no attributes).

This project models the rules that decide what those handlers answer. Each rule is a function over an abstract page.
The fetch and the CSS matching are inputs, not modelled:

- a main.go visit is the ordered matches plus Visit's error, if any;
- a backend visit is, for each `body` element, the matches of each query, plus Visit's error.

Each element carries its text, the text of its `title` descendants and its attribute list.
Where the Go code changes variables step by step, the model uses methods with loops:

- the `scrapedData` appends;
- the `success` flag;
- the `item += ...` string building;
- the nested query and match loops that append to `data`;
- the cookie callback loop.

Each of these methods is proved against the function that gives its result.

Modules:

- `Wrappers`: `Option`.
- `GoStrings`: the `strings` functions the handlers call.
  - `TrimSpace` is exact: `IsSpace` lists Go's white-space code points.
  - `Title` uses Go's word-boundary rule and upper-cases ASCII only.
  - Also `ToLower` on ASCII, `Split` and `SplitN(…, 2)` on one-character separators.
- `Page`: attributes, elements, and the first-attribute lookup that colly's and goquery's `Attr` share.
- `Frontend`: main.go.
- `Backend`: backend/main.go.

The model follows the code on these points, some of which a reader might expect to go the other way:

- `href` is the raw attribute value. It is never resolved to an absolute URL.
- `link` is not a recognised content type. It falls back to the element text.
- Neither handler paginates.
- The validator reports only a boolean. It collects no tag names.
- In main.go the `data` of a `/scrape` reply with no matches is a nil slice, which JSON encodes as `null`, not `[]`. `Frontend.Slice` keeps nil apart from the empty list. backend/main.go starts from `[]string{}`, so its `data` is always a list.
- Each cookie pair is installed with `Headers.Set("Cookie", …)`, so each one overwrites the one before. Only the last valid pair of the chosen cookie string reaches the request.

## Model

| member | source | states |
|---|---|---|
| `Frontend.Extract` | main.go:113-124 | the output for one match is the `ChildText("title")` text when the content type equals "title" ignoring ASCII case, the raw href ("" when absent) for "href", and the element text for "text" and for every other type |
| `Frontend.LowerMatches` | main.go:114 | lower-casing the content type gives a lower-case word exactly when the type equals that word ignoring case, which is what makes the switch case-insensitive |
| `Frontend.CaseInsensitive` | main.go:114 | any two content types that agree once lower-cased select the same output, for every element |
| `Frontend.TextIgnoresCase` | main.go:114-116 | "TEXT", "Text" and "text" all give the element text |
| `Frontend.UnknownTypesGiveText` | main.go:122-123 | "" and "link" are not recognised and fall back to the element text |
| `Frontend.TitleAndHrefIgnoreCase` | main.go:114-121 | "Title" gives the `ChildText("title")` text and "HREF" the raw href |
| `Frontend.HrefIsRaw` | main.go:119-121 | the "href" output is the value of the first `href` attribute as written, or "" when there is none |
| `Frontend.ScrapedShape` | main.go:112-125 | `scrapedData` holds exactly one string per match, in match order; entry i is the output for match i; the slice stays nil exactly when nothing matched |
| `Frontend.CollectScraped` | main.go:112-125 | appending once per match from a nil slice yields `Scraped` of the content type and the matches |
| `Frontend.ValidateSelector` | main.go:67-75 | the success flag is true exactly when at least one element matched and Visit returned no error; a visit error forces false even after matches |
| `Frontend.HandleValidateSelector` | main.go:40-83 | OPTIONS returns with no body. Any other non-POST method gets 405 "Method not allowed". A POST whose body does not decode gets 400 "Bad request" and nothing is visited. Otherwise the request is visited and the reply is 200 with success as above |
| `Frontend.HandleScrape` | main.go:85-139 | the same gate as the validator, with the same messages. A visit error gives 500 "Failed to visit URL" and no data. Otherwise the reply is 200 with one string per match in match order, and the data is nil exactly when nothing matched |
| `GoStrings.TrimSpace` | backend/main.go:104 | the trimmed item neither starts nor ends with white space |
| `GoStrings.TrimSpaceEmpty` | backend/main.go:104-107 | the trimmed item is empty exactly when the item is all white space |
| `GoStrings.TrimSpacePiece` | backend/main.go:104 | the trimmed item is a contiguous piece of the item; what was removed before and after it is all white space |
| `GoStrings.TitleExample` | backend/main.go:95 | an attribute name is capitalised word by word: "data-id" becomes "Data-Id" |
| `GoStrings.TitleChangesCaseOnly` | backend/main.go:95 | capitalising an attribute name changes letter case only: same length, same lower-cased string, and no word starts with a lower-case ASCII letter |
| `GoStrings.Split` | backend/main.go:64 | splitting the chosen cookie string on `;` gives at least one piece, and no piece contains `;` |
| `GoStrings.JoinSplit` | backend/main.go:64 | re-joining the pieces with `;` gives the cookie string back, so the pieces are its segments in order |
| `GoStrings.SplitN2` | backend/main.go:66-67 | `SplitN(cookie, "=", 2)` has two parts exactly when the segment contains `=`. The name is the text before the first `=` and holds no `=`. The value is everything after it. Name, `=` and value re-join to the segment |
| `Page.FindAttr` | backend/main.go:99 | the attribute lookup finds the first attribute with the given key, and finds nothing exactly when no attribute has that key |
| `Backend.Pick` | backend/main.go:47-58 | a proxy or user agent is chosen only when its list is non-empty; the choice is an entry of the list, and the only entry when the list has one |
| `Backend.Configure` | backend/main.go:46-73 | the proxy and the user agent are `list[i]` for the drawn index when their list is non-empty, and left unset otherwise. The cookie callbacks are the `=`-holding segments of the drawn cookie string, in order, or none without cookie strings |
| `Backend.ConfiguredHeaders` | backend/main.go:61-72 | after the OnRequest callbacks run, the Cookie header is the last `=`-holding segment of the drawn cookie string. The headers are unchanged when there are no cookie strings or no such segment. A Cookie the caller did not set is always such a segment |
| `Backend.RegisterCookies` | backend/main.go:63-72 | the loop registers one callback per segment that SplitN cuts in two, with value `parts[0] + "=" + parts[1]`, in segment order |
| `Backend.PairsAreSegments` | backend/main.go:64-71 | the registered values are exactly the segments that contain `=`, in order and untrimmed |
| `Backend.CookiePairShape` | backend/main.go:64-69 | every registered Cookie value is one `;`-free segment of the cookie string that contains `=`, and is rebuilt exactly from its name and value parts |
| `Backend.RunCookieCallbacks` | backend/main.go:68-70 | running the Set callbacks in order leaves the headers unchanged when there are none, and otherwise sets Cookie to the last registered pair |
| `Backend.BuildItem` | backend/main.go:83-104 | the built item is the trim of: "Text: text " when the text is non-empty, then "Title(key): val " for each attribute in order, then "Href: href " when there is an href |
| `Backend.TitleHref` | backend/main.go:95 | the attribute loop names an `href` attribute "Href" |
| `Backend.HrefTwice` | backend/main.go:93-101 | an element with an href says "Href: value " twice before trimming: once at the href's place among the attributes, once more at the end |
| `Backend.RecordKept` | backend/main.go:83-109 | a match contributes a record exactly when it has non-empty text or at least one attribute; the record is then non-empty with no leading or trailing white space |
| `Backend.MatchRecordsFacts` | backend/main.go:81-110 | a query's matches yield one record per match that has text or an attribute, so at most one per match; every record is non-empty and trimmed |
| `Backend.QueryRecordsFacts` | backend/main.go:79-111 | one body yields at most as many records as the queries have matches in total; every record is non-empty and trimmed |
| `Backend.QueryOrder` | backend/main.go:79-81 | records follow query order: the records of queries `q1 + q2` are those of `q1` followed by those of `q2` |
| `Backend.NoMatchesNoData` | backend/main.go:75-81 | with no queries, or no query matching anything, `data` is the empty list |
| `Backend.AllRecordsTrimmed` | backend/main.go:77-112 | every record collected over all body elements is non-empty and trimmed |
| `Backend.OnMatches` | backend/main.go:81-110 | the Each callback appends to `data` the record of every match that yields one, in match order |
| `Backend.OnBody` | backend/main.go:77-112 | one run of the body callback appends to `data` the records of each query's matches, query by query and match by match |
| `Backend.CollectRecords` | backend/main.go:75-112 | `data` starts as the empty list and receives the records of every body element in turn |
| `Backend.HandleScrape` | backend/main.go:37-123 | a binding error gives 400 with the error text and nothing is visited. Otherwise the URL is visited under the configuration above. A visit error gives 500 with its text. Success gives 200 with every record, each non-empty and trimmed |

## Left out

- HTTP routing, CORS headers, static file serving and response writing are I/O plumbing (main.go:27-38, backend/main.go:26-35, 125). Each handler's answer is a value; for `http.Error` the model keeps the message without the newline Go appends. gin's reply to a non-POST `/scrape` is routing and is not modelled.
- JSON decoding and encoding are library calls. Decoding is an input: `None` or `BindError(message)` when it fails.
- The colly and goquery internals are inputs: the network fetch, CSS matching, proxy application, and how `Text`, `ChildText("title")` and `Attr` are computed. The libraries are not part of this model.
- Randomness and time are not statable. `rand.Seed(time.Now().Unix())` and `rand.Intn` become index parameters with range preconditions.
- `Backend.Picks`: each of the three draws reseeds with the current second, so draws in the same second are correlated. Taking the three indices independently over-approximates that, so every fact proved for all picks also holds for the correlated ones.
- The header callbacks of main.go are not modelled (main.go:61-65, 106-110). Go map iteration order is unspecified, and what the closures capture depends on the Go version.
- `GoStrings.Title`: upper-cases ASCII letters only. Go's `unicode.ToTitle` would also change other letters. The word-boundary test is exact.
- `GoStrings.ToLower`: lower-cases ASCII letters only. Go's `strings.ToLower` would also lower-case other letters. Only ASCII content types are compared exactly. For example, Go's `unicode.ToLower` maps U+0130 (dotted capital I) to `i`, so in main.go:114 the content type "TİTLE" selects the `ChildText("title")` text, while `Frontend.DottedCapitalIGivesText` shows that the model gives the element text.
- Go strings are bytes and the model works on Unicode scalar values. The separators `;` and `=` are ASCII, so splitting agrees on valid UTF-8.
- Pagination, tag-name collection and absolute URL resolution are not modelled, because the code has none of them.
