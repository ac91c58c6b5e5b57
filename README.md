# Crawl loops of the web-scraping.dev scrapers, in Dafny

This project models the three crawlers of the repository and proves what they promise
about the requests they issue and the records they return:

- **Products** (`scrape_products_improved`): numbered pagination over
  `/products?page=N`. Page 1's caption `total N results in M pages` fixes the number of
  pages. Every product block becomes an `{ime, cena, opis}` record. A present field is
  stripped of surrounding whitespace and an absent one gets a fixed placeholder.
- **Reviews** (`scrape_all_reviews_graphql`): cursor pagination over a GraphQL
  `reviews(first: 20, after: cursor)` connection. Each edge becomes one record. The
  crawl goes on from `endCursor` while `hasNextPage` holds. It stops on a failed
  request, a missing key or an empty batch, and keeps what it has.
- **Testimonials** (`scrape_all_testimonials`): follows the `hx-get` continuation of the
  last trigger element on each page. Each follow-up request sends the headers that
  element declares, overlaid by fixed htmx headers and without a JSON `Accept`. Only
  the first testimonial of each text is kept.

Each crawl is an imperative method with the loop structure of the source. It returns
the records and the requests it issued. Its postcondition ties both to the server:

- a ghost predicate `IsRun` says which request comes first, how each request follows
  from the answer to the one before, and why the crawl stopped;
- a specification function (`Collected`, `Gathered`) gives the records those requests
  bring in.

Lemmas about those two definitions state the promised properties. The web server is a
function parameter from request to optional answer, where `None` stands for a request
that raises. Parsed HTML and decoded JSON are datatypes whose optional fields stand for
missing elements, attributes and keys. The module `Text` models Python's `str.strip()`,
BeautifulSoup's `get_text(strip=True)` and `len(tag.find_all(name))`.

Three behaviours of the code that the model keeps:

- A testimonial's author is `None` when the `identicon-svg` tag has no `username`
  attribute, because the code reads it with `author_tag.get('username')`.
- A reply without `pageInfo` adds no records and ends the review crawl, even when its
  `edges` are non-empty, because `pageInfo` is looked up before the edge loop runs.
- A `null` `endCursor` is the cursor `None`. The next request then sends it as its
  `after`, just as the first request does.

## Model

| member | source | states |
|---|---|---|
| Text.Strip | scrape_data_products.py:40-46 | the result is a slice of the input, everything around it is whitespace, and it neither starts nor ends with whitespace |
| Text.StripIdempotent | scrape_data_products.py:40-46 | stripping twice is stripping once |
| Text.StrippedText | scrape_data_tetimonials.py:33-34 | the joined stripped strings are no longer than the strings together, and are empty when every string is whitespace |
| Text.StrippedTextSingle | scrape_data_tetimonials.py:34 | the text of a single string is that string stripped |
| Text.StrippedTextConcat | scrape_data_tetimonials.py:34 | the text of two runs of strings is their two texts joined, so the text of any list is the join of its stripped strings |
| Text.Count | scrape_data_tetimonials.py:41-42 | the count is the number of entries equal to the name, so at most the number of tags and 0 exactly when no tag has the name |
| Products.DigitRun | scrape_data_products.py:29 | the run of digits is maximal: all of it is digits and the next character is not one |
| Products.FirstMatch | scrape_data_products.py:29 | the search finds the leftmost position where the caption pattern matches, or reports that it matches nowhere |
| Products.CaptionPages | scrape_data_products.py:29-31 | a caption yields no page count exactly when the pattern matches at no position |
| Products.CaptionPagesLeftmost | scrape_data_products.py:29-31 | a page count the caption yields is the count of the leftmost match |
| Products.DigitsValue | scrape_data_products.py:31 | `int()` of `k` decimal digits is below `10^k` |
| Products.DecimalValue | scrape_data_products.py:31 | `int()` of the decimal digits of `n` is `n` |
| Products.CaptionRoundTrip | scrape_data_products.py:27-31 | parsing a rendered caption `total X results in M pages`, with any text after it, gives back `M` |
| Products.Field | scrape_data_products.py:39-46 | a present element gives its text with exactly the surrounding whitespace removed; an absent one gives the placeholder |
| Products.ExtractProduct | scrape_data_products.py:39-52 | each field of the record is its element's stripped text, or "Neznano ime", "Ni cene" or "Brez opisa" when that element is missing, and a missing field never skips the record |
| Products.ExtractAll | scrape_data_products.py:36-52 | one record per block, in block order, built from that block |
| Products.ExtractPage | scrape_data_products.py:38-52 | the block loop appends exactly the records of all blocks of the page, in order |
| Products.PagesFromCaption | scrape_data_products.py:26-34 | `total_pages` stays 1 unless page 1 has a paging caption that matches, and then it is that caption's page count |
| Products.LastPage | scrape_data_products.py:10-34 | the last page is at least 1, and other than 1 only through the caption of a served page 1 |
| Products.ScrapeProducts | scrape_data_products.py:6-67 | the requested pages form a run, and the result is the records of every served page in page order |
| Products.PagesInOrder | scrape_data_products.py:16-53 | pages are requested from page 1 upwards in strictly increasing order |
| Products.AllServedRequestsAll | scrape_data_products.py:16-53 | with no failed request, the pages requested are exactly `1..max(1, M)` |
| Products.NoCaptionOnePage | scrape_data_products.py:26-34 | a served page 1 without a matching caption is the only page requested |
| Products.RunIsUnique | scrape_data_products.py:16-60 | the server determines the run |
| Products.CollectedLength | scrape_data_products.py:36-52 | the number of records equals the number of blocks on the served pages |
| Products.CollectedGrows | scrape_data_products.py:48-53 | records of earlier pages are never removed or changed by later pages |
| Products.TwoPageListing | scrape_data_products.py:16-53 | a listing captioned "total 15 results in 2 pages" with 8 and 7 blocks is crawled as pages 1 and 2 with 15 records |
| Reviews.ToReview | scrape_data_reviews.py:42-50 | an edge yields a record exactly when its node and all four keys are present, and the fields are copied unchanged |
| Reviews.MappedPrefix | scrape_data_reviews.py:42-50 | the edge loop appends one record per edge, in order, up to the first edge with a missing key |
| Reviews.MappedPrefixUnique | scrape_data_reviews.py:42-50 | those three properties determine the appended records |
| Reviews.MapBatch | scrape_data_reviews.py:42-50 | the imperative edge loop appends exactly those records |
| Reviews.Batch | scrape_data_reviews.py:29-61 | a reply with `edges` and `pageInfo` and a non-empty batch yields the mapped records of its edges; the crawl goes on exactly from a full batch whose `endCursor` is present and whose `hasNextPage` is true, and then from that `endCursor` |
| Reviews.ScrapeAllReviews | scrape_data_reviews.py:4-64 | the queries form a run starting from a `None` cursor with `first = 20`, and the result is the records of every batch in order |
| Reviews.RunIsUnique | scrape_data_reviews.py:17-27 | the server and the allowance determine the queries |
| Reviews.AllowanceIrrelevant | scrape_data_reviews.py:17 | a crawl that stopped on its own stops the same way under any larger allowance |
| Reviews.NextQuery | scrape_data_reviews.py:17-53 | the crawl does not stop early: while the allowance lasts, a batch that goes on is followed by a request for 20 reviews after its `endCursor` |
| Reviews.StopIsLast | scrape_data_reviews.py:17-61 | a batch that ends the crawl is the last one requested |
| Reviews.EmptyAnswerEndsCrawl | scrape_data_reviews.py:29-40 | a failed request, a missing `edges` or `pageInfo`, or an empty batch ends the crawl and adds nothing |
| Reviews.MissingKeyEndsCrawl | scrape_data_reviews.py:42-61 | a missing key ends the crawl, keeping the records of the earlier edges of the same batch after everything gathered before |
| Reviews.OneRecordPerEdge | scrape_data_reviews.py:42-53 | the records before any batch are exactly as many as the edges of the batches before it |
| Reviews.AtMostOneRecordPerEdge | scrape_data_reviews.py:42-50 | a crawl never returns more records than the edges it received |
| Reviews.GatheredGrows | scrape_data_reviews.py:42-50 | records of earlier batches are never removed or changed by later batches |
| Testimonials.Extract | scrape_data_tetimonials.py:33-42 | a present text tag gives its stripped text and a missing one "N/A"; a present author tag gives its `username` and a missing one "Unknown Author"; a present rating span gives the number of its `svg` tags and a missing one 0 |
| Testimonials.Candidates | scrape_data_tetimonials.py:31-42 | one candidate record per element of the page, in document order |
| Testimonials.DeclaredHeaders | scrape_data_tetimonials.py:54-59 | the declared headers are the decoded quote-normalised `hx-headers` (`{}` when absent), and empty when decoding fails |
| Testimonials.NormaliseQuotes | scrape_data_tetimonials.py:56 | every single quote becomes a double quote and every other character is kept |
| Testimonials.KeepFirst | scrape_data_tetimonials.py:36-49 | no two kept records share a text, and there are no more of them than candidates |
| Testimonials.KeepFirstTexts | scrape_data_tetimonials.py:21-49 | the kept records carry exactly the texts of all candidates |
| Testimonials.KeepFirstIsFirstOccurrences | scrape_data_tetimonials.py:36-49 | checking against the kept texts equals keeping each candidate whose text no earlier candidate had |
| Testimonials.KeepFirstGrows | scrape_data_tetimonials.py:44-48 | records kept for earlier candidates are never removed or changed |
| Testimonials.KeepFirstSeen | scrape_data_tetimonials.py:36-37 | a candidate whose text was seen leaves the result unchanged |
| Testimonials.KeepFirstSeenAll | scrape_data_tetimonials.py:36-49 | a page whose texts were all seen before adds no record |
| Testimonials.KeepFirstIdempotent | scrape_data_tetimonials.py:36-49 | deduplicating the result again changes nothing |
| Testimonials.DistinctKeptWhole | scrape_data_tetimonials.py:36-49 | candidates with pairwise different texts are all kept |
| Testimonials.KeepNew | scrape_data_tetimonials.py:36-49 | one dedup step keeps the result equal to the deduplicated candidates and the seen set equal to their texts |
| Testimonials.LastTrigger | scrape_data_tetimonials.py:51-53 | the chosen element is the last one with an `hx-get` |
| Testimonials.NotedStep | scrape_data_tetimonials.py:51-59 | each element with an `hx-get` replaces the noted trigger and headers; any other element leaves them unchanged |
| Testimonials.ScanPage | scrape_data_tetimonials.py:27-59 | the element loop keeps the deduplicated candidates and notes the trigger and headers of the last trigger element |
| Testimonials.UnparsableHeaders | scrape_data_tetimonials.py:54-59 | undecodable `hx-headers` do not stop the crawl: the follow-up carries the four fixed headers and nothing else |
| Testimonials.Outgoing | scrape_data_tetimonials.py:66-75 | the four fixed headers override the declared ones; `Accept` is dropped exactly when it is `application/json`; every other declared key is kept unchanged |
| Testimonials.BuildHeaders | scrape_data_tetimonials.py:66-75 | the in-place construction of the outgoing map yields those headers |
| Testimonials.NextRequest | scrape_data_tetimonials.py:61-75 | the crawl ends on a page exactly when it has no trigger or its last trigger's `hx-get` is empty; otherwise the next request goes to that URL |
| Testimonials.NextRequestOf | scrape_data_tetimonials.py:61-72 | a missing or empty trigger ends the crawl; otherwise the next request goes to the trigger URL with the outgoing headers |
| Testimonials.ScrapeAllTestimonials | scrape_data_tetimonials.py:5-97 | the requests form a run starting from the initial request, and the result is the deduplicated candidates of every served page in order |
| Testimonials.RunIsUnique | scrape_data_tetimonials.py:23-95 | the server, the decoder and the allowance determine the requests |
| Testimonials.AllowanceIrrelevant | scrape_data_tetimonials.py:23 | a crawl that stopped on its own stops the same way under any larger allowance |
| Testimonials.InitialFailure | scrape_data_tetimonials.py:10-16 | a failed first request gives an empty result |
| Testimonials.StopIsLast | scrape_data_tetimonials.py:61-90 | a failed request or a page without a usable trigger is the last one; a failed request adds nothing |
| Testimonials.FollowUpHeaders | scrape_data_tetimonials.py:65-81 | every follow-up has the fixed htmx headers, `Referer` set to the testimonials page and no `Accept` whose value is exactly `application/json`, and goes to a non-empty URL |
| Testimonials.CollectedDistinct | scrape_data_tetimonials.py:21-49 | the returned records never share a text and carry every text the pages offered |
| Testimonials.CollectedGrows | scrape_data_tetimonials.py:44-48 | testimonials kept from earlier pages are never removed or changed by later pages |

## Left out

- HTTP (`requests.get`, `requests.post`, `raise_for_status`, `response.json()`) is the
  server parameter. `None` stands for any exception the request or its decoding
  raises. The products URL, the review query text and the request headers of the
  products and reviews crawlers are not modelled. A review request is reduced to its
  variables `first` and `after`.
- HTML parsing with BeautifulSoup is not modelled. A page is the sequence of element
  records the crawler reads. For the product crawler, an exception while reading a
  page counts as a failure of the whole page. The source would keep any records that
  page appended before the exception.
- Products.ScrapeProducts: since Python 3.11, `int()` raises `ValueError` on a string of
  more than 4300 digits. A page 1 caption such as `total 1 results in` followed by 4301
  ones and ` pages` then makes the source stop after page 1 and return no records. The
  model has no such limit: it takes that page count, keeps page 1's records and goes on
  to page 2.
- `json.loads` of the normalised `hx-headers` is the decoder parameter. A decoded value
  that is not an object (a `TypeError` at `**`) is not modelled.
- The decoder yields declared headers as a map from strings to strings. A declared
  header with a non-string value (say `5`) makes `requests.get` raise `InvalidHeader`,
  which ends the crawl. A `null` value is dropped by `requests` when it merges headers.
  Neither is modelled.
- The `Accept` check on follow-up headers is case-sensitive on both key and value, as
  in the source, so it is not a general "never asks for JSON". A declared
  `accept: application/json`, or an `Accept` with a longer value such as
  `application/json, text/html`, is sent unchanged.
- JSON `null` or wrongly-typed values in the GraphQL answer are not modelled, except
  for a `null` `endCursor` (see above). In the source they have three different effects:
  - Some values raise an uncaught `TypeError`, so the function returns nothing. These
    are a `null` `data`, `reviews`, edge or `node`. A non-list `edges` that is truthy
    does the same. So does a `null` `pageInfo`, which is read after the edge loop.
  - A `null` or other falsy `edges` ends the crawl at `if not reviews_edges` and keeps
    the records, as an empty batch does.
  - A `null` or wrongly-typed `rid`, `text`, `rating` or `date` is copied into the
    record unchanged.
- A `hasNextPage` is modelled as a boolean, not as any truthy value.
- Python's `\d` also matches non-ASCII decimal digits. The caption matcher accepts
  only `0`-`9`.
- Reviews.ScrapeAllReviews: the source loops as long as the server reports more
  pages. The method takes an allowance `maxPages` of requests so that it terminates.
  `Reviews.AllowanceIrrelevant` shows that a crawl that stops on its own is unaffected
  by it.
- Testimonials.ScrapeAllTestimonials: the source follows continuations for as long as
  pages offer them. The method takes an allowance `maxFollowUps`.
  `Testimonials.AllowanceIrrelevant` shows the same independence.
- Text.StrippedText: its own contract bounds the length and covers the all-whitespace
  case. Its value is pinned down by `Text.StrippedTextSingle` and
  `Text.StrippedTextConcat`.
- Testimonials.Texts: its contract states one inclusion only. The converse is
  `Testimonials.TextsOnly`.
- Logging (`print`), writing `data.json`, the module-level code that runs the
  scrapers, and `app.py` (a Streamlit dashboard with pandas and a sentiment model)
  are not part of this model.
