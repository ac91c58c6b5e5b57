/**
 * The testimonial crawler: it fetches `/testimonials`, keeps one record per distinct
 * testimonial text, and follows the `hx-get` continuation of the page's last trigger
 * element, sending the headers that element declares overlaid by fixed htmx headers,
 * until a page has no continuation or a request fails.
 */
module Testimonials {
  import opened Common
  import Text

  type Headers = map<string, string>

  /** A GET request: the URL and the header map sent with it. */
  datatype Request = Request(url: string, headers: Headers)

  /** An `identicon-svg` tag: its `username` attribute, if present. */
  datatype AuthorTag = AuthorTag(username: Option<string>)

  /**
   * A `div.testimonial` element: the strings inside its `p.text`, its author tag, the
   * tag names inside its `span.rating`, and its `hx-get` and `hx-headers` attributes;
   * `None` wherever the element has no such descendant or attribute.
   */
  datatype Element = Element(
    textTag: Option<seq<string>>,
    authorTag: Option<AuthorTag>,
    ratingSpan: Option<seq<string>>,
    hxGet: Option<string>,
    hxHeaders: Option<string>)

  /** A scraped testimonial; `author` is `None` for an author tag without a `username` (JSON `null`). */
  datatype Testimonial = Testimonial(author: Option<string>, rating: nat, text: string)

  /**
   * The web server: the `div.testimonial` elements of the page returned for a request,
   * in document order, or `None` when the request raises.
   */
  type Server = Request -> Option<seq<Element>>

  /** `json.loads` on a header string: the decoded object, or `None` when it is not valid JSON. */
  type Decoder = string -> Option<Headers>

  const TestimonialsUrl := "https://web-scraping.dev/testimonials"
  const UserAgent :=
    "Mozilla/5.0 (Windows NT 10.0; Win64; x64) AppleWebKit/537.36 (KHTML, like Gecko) Chrome/91.0.4472.124 Safari/537.36"
  const NoText := "N/A"
  const NoAuthor := "Unknown Author"
  const JsonType := "application/json"

  /** The first request: the testimonials page with only a `User-Agent` header. */
  const InitialRequest := Request(TestimonialsUrl, map["User-Agent" := UserAgent])

  // ---------------------------------------------------------------------------
  // One element
  // ---------------------------------------------------------------------------

  /** The record an element yields, whether or not it is kept. */
  function Extract(e: Element): (t: Testimonial)
    ensures e.textTag.None? ==> t.text == NoText
    ensures e.textTag.Some? ==> t.text == Text.StrippedText(e.textTag.value)
    ensures e.authorTag.None? ==> t.author == Some(NoAuthor)
    ensures e.authorTag.Some? ==> t.author == e.authorTag.value.username
    ensures e.ratingSpan.None? ==> t.rating == 0
    ensures e.ratingSpan.Some? ==> t.rating == multiset(e.ratingSpan.value)["svg"]
    ensures e.ratingSpan.Some? ==> t.rating <= |e.ratingSpan.value|
    ensures e.ratingSpan.Some? ==> (t.rating == 0 <==> "svg" !in e.ratingSpan.value)
  {
    var text := match e.textTag case Some(strings) => Text.StrippedText(strings) case None => NoText;
    var author := match e.authorTag case Some(tag) => tag.username case None => Some(NoAuthor);
    var rating := match e.ratingSpan case Some(names) => Text.Count(names, "svg") case None => 0;
    Testimonial(author, rating, text)
  }

  /** The records the elements of a page yield, in document order. */
  function Candidates(els: seq<Element>): (r: seq<Testimonial>)
    ensures |r| == |els|
    ensures forall i :: 0 <= i < |els| ==> r[i] == Extract(els[i])
  {
    seq(|els|, i requires 0 <= i < |els| => Extract(els[i]))
  }

  /** `s.replace("'", '"')`. */
  function NormaliseQuotes(s: string): (r: string)
    ensures |r| == |s| && '\'' !in r
    ensures forall i :: 0 <= i < |s| && s[i] != '\'' ==> r[i] == s[i]
    ensures forall i :: 0 <= i < |s| && s[i] == '\'' ==> r[i] == '"'
  {
    if s == [] then []
    else NormaliseQuotes(s[..|s| - 1]) + [if s[|s| - 1] == '\'' then '"' else s[|s| - 1]]
  }

  /**
   * The headers an element declares: its `hx-headers` (default `{}`) with single quotes
   * turned into double quotes, decoded; a string that does not decode declares none.
   */
  function DeclaredHeaders(e: Element, decode: Decoder): (h: Headers)
    ensures e.hxHeaders.None? ==> h == decode("{}").GetOr(map[])
    ensures decode(NormaliseQuotes(e.hxHeaders.GetOr("{}"))).None? ==> h == map[]
    ensures decode(NormaliseQuotes(e.hxHeaders.GetOr("{}"))).Some? ==>
      h == decode(NormaliseQuotes(e.hxHeaders.GetOr("{}"))).value
  {
    assert NormaliseQuotes("{}") == "{}";
    decode(NormaliseQuotes(e.hxHeaders.GetOr("{}"))).GetOr(map[])
  }

  // ---------------------------------------------------------------------------
  // Keeping the first testimonial of each text
  // ---------------------------------------------------------------------------

  /** The texts of a sequence of testimonials. */
  function Texts(s: seq<Testimonial>): (r: set<string>)
    ensures forall i :: 0 <= i < |s| ==> s[i].text in r
  {
    if s == [] then {} else Texts(s[..|s| - 1]) + {s[|s| - 1].text}
  }

  /**
   * What the dedup loop keeps of the candidates `c`: each candidate whose text is not
   * among the texts of the records kept so far, in order. No two kept records share a text.
   */
  function KeepFirst(c: seq<Testimonial>): (r: seq<Testimonial>)
    ensures |r| <= |c|
    ensures forall i, j :: 0 <= i < j < |r| ==> r[i].text != r[j].text
  {
    if c == [] then []
    else
      var kept := KeepFirst(c[..|c| - 1]);
      if c[|c| - 1].text in Texts(kept) then kept else kept + [c[|c| - 1]]
  }

  /** The kept records carry exactly the texts of the candidates: every text is kept once. */
  lemma {:induction false} KeepFirstTexts(c: seq<Testimonial>)
    ensures Texts(KeepFirst(c)) == Texts(c)
  {
    if c != [] {
      KeepFirstTexts(c[..|c| - 1]);
      var x := c[|c| - 1];
      TextsSnoc(c[..|c| - 1], x);
      assert c == c[..|c| - 1] + [x];
      var kept := KeepFirst(c[..|c| - 1]);
      if x.text !in Texts(kept) {
        TextsSnoc(kept, x);
      }
    }
  }

  /** A text that no testimonial carries is not among their texts. */
  lemma {:induction false} TextsOnly(s: seq<Testimonial>, t: string)
    requires forall i :: 0 <= i < |s| ==> s[i].text != t
    ensures t !in Texts(s)
  {
    if s != [] {
      TextsOnly(s[..|s| - 1], t);
    }
  }

  lemma TextsSnoc(s: seq<Testimonial>, x: Testimonial)
    ensures Texts(s + [x]) == Texts(s) + {x.text}
  {
    assert (s + [x])[..|s|] == s;
  }

  /**
   * The reference definition of deduplication: keep each candidate whose text does not
   * occur among the EARLIER CANDIDATES (kept or not).
   */
  function FirstOccurrences(c: seq<Testimonial>): seq<Testimonial> {
    if c == [] then []
    else
      FirstOccurrences(c[..|c| - 1]) +
      (if c[|c| - 1].text in Texts(c[..|c| - 1]) then [] else [c[|c| - 1]])
  }

  /** Checking new texts against the kept records is the same as checking them against all earlier candidates. */
  lemma {:induction false} KeepFirstIsFirstOccurrences(c: seq<Testimonial>)
    ensures KeepFirst(c) == FirstOccurrences(c)
  {
    if c != [] {
      var p := c[..|c| - 1];
      KeepFirstIsFirstOccurrences(p);
      KeepFirstTexts(p);
      assert KeepFirst(c) == KeepFirst(p) + (if c[|c| - 1].text in Texts(p) then [] else [c[|c| - 1]]);
    }
  }

  /** Records kept for earlier candidates are never removed or changed by later ones. */
  lemma {:induction false} KeepFirstGrows(c: seq<Testimonial>, d: seq<Testimonial>)
    ensures KeepFirst(c) <= KeepFirst(c + d)
    decreases |d|
  {
    if d == [] {
      assert c + d == c;
    } else {
      var d' := d[..|d| - 1];
      assert (c + d)[..|c + d| - 1] == c + d';
      KeepFirstGrows(c, d');
    }
  }

  /** A candidate whose text was seen before leaves the kept records as they are. */
  lemma KeepFirstSeen(c: seq<Testimonial>, x: Testimonial)
    requires x.text in Texts(c)
    ensures KeepFirst(c + [x]) == KeepFirst(c)
  {
    assert (c + [x])[..|c|] == c;
    KeepFirstTexts(c);
  }

  /** A page whose texts were all seen before adds no record. */
  lemma {:induction false} KeepFirstSeenAll(c: seq<Testimonial>, d: seq<Testimonial>)
    requires forall i :: 0 <= i < |d| ==> d[i].text in Texts(c)
    ensures KeepFirst(c + d) == KeepFirst(c)
    decreases |d|
  {
    if d == [] {
      assert c + d == c;
    } else {
      var d', x := d[..|d| - 1], d[|d| - 1];
      assert c + d == (c + d') + [x];
      hide KeepFirst, Texts;
      KeepFirstSeenAll(c, d');
      KeepFirstTexts(c + d');
      KeepFirstTexts(c);
      KeepFirstSeen(c + d', x);
    }
  }

  /** Applying the deduplication to its own result changes nothing. */
  lemma {:induction false} KeepFirstIdempotent(c: seq<Testimonial>)
    ensures KeepFirst(KeepFirst(c)) == KeepFirst(c)
  {
    DistinctKeptWhole(KeepFirst(c));
  }

  /** Candidates with pairwise different texts are all kept. */
  lemma {:induction false} DistinctKeptWhole(c: seq<Testimonial>)
    requires forall i, j :: 0 <= i < j < |c| ==> c[i].text != c[j].text
    ensures KeepFirst(c) == c
  {
    if c != [] {
      var p := c[..|c| - 1];
      DistinctKeptWhole(p);
      TextsOnly(p, c[|c| - 1].text);
      assert p + [c[|c| - 1]] == c;
    }
  }

  /** `scraped_texts` as the loop sees it before each element: the texts of the kept records. */
  method KeepNew(testimonials: seq<Testimonial>, seen: set<string>, ghost c: seq<Testimonial>, x: Testimonial)
    returns (testimonials': seq<Testimonial>, seen': set<string>)
    requires testimonials == KeepFirst(c) && seen == Texts(testimonials)
    ensures testimonials' == KeepFirst(c + [x]) && seen' == Texts(testimonials')
  {
    assert (c + [x])[..|c|] == c;
    testimonials', seen' := testimonials, seen;
    if x.text !in seen {
      testimonials' := testimonials + [x];
      seen' := seen + {x.text};
      TextsSnoc(testimonials, x);
    }
  }

  // ---------------------------------------------------------------------------
  // The continuation
  // ---------------------------------------------------------------------------

  /** The index of the last element with an `hx-get` attribute, if any. */
  function LastTrigger(els: seq<Element>): (r: Option<nat>)
    ensures r.None? ==> forall j :: 0 <= j < |els| ==> els[j].hxGet.None?
    ensures r.Some? ==> r.value < |els| && els[r.value].hxGet.Some?
    ensures r.Some? ==> forall j :: r.value < j < |els| ==> els[j].hxGet.None?
  {
    if els == [] then None
    else if els[|els| - 1].hxGet.Some? then Some(|els| - 1)
    else LastTrigger(els[..|els| - 1])
  }

  /** The `hx-get` of the last trigger element (`next_page_url_trigger` after the element loop). */
  function NotedTrigger(els: seq<Element>): Option<string> {
    match LastTrigger(els)
    case Some(k) => els[k].hxGet
    case None => None
  }

  /** The headers the last trigger element declares (`hx_headers_from_html` after the element loop). */
  function NotedHeaders(els: seq<Element>, decode: Decoder): Headers {
    match LastTrigger(els)
    case Some(k) => DeclaredHeaders(els[k], decode)
    case None => map[]
  }

  /** One more element either is the new last trigger or leaves what was noted as it was. */
  lemma NotedStep(els: seq<Element>, decode: Decoder, i: nat)
    requires i < |els|
    ensures els[i].hxGet.Some? ==>
      NotedTrigger(els[..i + 1]) == els[i].hxGet && NotedHeaders(els[..i + 1], decode) == DeclaredHeaders(els[i], decode)
    ensures els[i].hxGet.None? ==>
      NotedTrigger(els[..i + 1]) == NotedTrigger(els[..i]) && NotedHeaders(els[..i + 1], decode) == NotedHeaders(els[..i], decode)
  {
    assert els[..i + 1][..i] == els[..i];
    if els[i].hxGet.None? {
      var k := LastTrigger(els[..i]);
      assert k.Some? ==> els[..i + 1][k.value] == els[..i][k.value];
    }
  }

  /**
   * The headers of a follow-up request: the declared headers overlaid by the fixed htmx
   * headers, without an `Accept` that asks for JSON.
   */
  function Outgoing(declared: Headers): (h: Headers)
    ensures "HX-Request" in h && h["HX-Request"] == "true"
    ensures "X-Requested-With" in h && h["X-Requested-With"] == "XMLHttpRequest"
    ensures "Referer" in h && h["Referer"] == TestimonialsUrl
    ensures "User-Agent" in h && h["User-Agent"] == UserAgent
    ensures "Accept" in h <==> "Accept" in declared && declared["Accept"] != JsonType
    ensures forall k :: k in h && k !in FixedKeys ==> k in declared && h[k] == declared[k]
    ensures forall k :: k in declared && k !in FixedKeys && k != "Accept" ==> k in h
  {
    var h := declared["HX-Request" := "true"]["X-Requested-With" := "XMLHttpRequest"]
      ["Referer" := TestimonialsUrl]["User-Agent" := UserAgent];
    if "Accept" in h && h["Accept"] == JsonType then h - {"Accept"} else h
  }

  const FixedKeys := {"HX-Request", "X-Requested-With", "Referer", "User-Agent"}

  /**
   * The follow-up request a page asks for, or `None` when the crawl ends on it: it goes to
   * the `hx-get` of the page's last trigger element, with the outgoing headers built from
   * what that element declares, unless the page has no trigger or that `hx-get` is empty.
   */
  function NextRequest(els: seq<Element>, decode: Decoder): (r: Option<Request>)
    ensures r.None? <==> NotedTrigger(els).None? || NotedTrigger(els) == Some("")
    ensures r.Some? ==> r.value.url == NotedTrigger(els).value
  {
    match LastTrigger(els)
    case None => None
    case Some(k) =>
      var url := els[k].hxGet.value;
      if url == "" then None else Some(Request(url, Outgoing(DeclaredHeaders(els[k], decode))))
  }

  /**
   * When the `hx-headers` of the last trigger cannot be decoded the crawl still goes on,
   * sending the fixed htmx headers and nothing else.
   */
  lemma UnparsableHeaders(els: seq<Element>, decode: Decoder, k: nat)
    requires LastTrigger(els) == Some(k) && els[k].hxGet != Some("")
    requires decode(NormaliseQuotes(els[k].hxHeaders.GetOr("{}"))).None?
    ensures NextRequest(els, decode) == Some(Request(els[k].hxGet.value, map[
      "HX-Request" := "true", "X-Requested-With" := "XMLHttpRequest",
      "Referer" := TestimonialsUrl, "User-Agent" := UserAgent]))
  {
    var h := Outgoing(map[]);
    assert h.Keys == FixedKeys;
  }

  // ---------------------------------------------------------------------------
  // The crawl
  // ---------------------------------------------------------------------------

  /**
   * `requests` starts like a crawl: the first is the initial request, and each later one
   * is the continuation of the page the one before brought back.
   */
  ghost predicate IsChain(server: Server, decode: Decoder, requests: seq<Request>) {
    && requests != [] && requests[0] == InitialRequest
    && (forall i :: 0 <= i < |requests| - 1 ==> Follows(server, decode, requests[i], requests[i + 1]))
  }

  /** `next` is the continuation of the page the server answers `previous` with. */
  ghost predicate Follows(server: Server, decode: Decoder, previous: Request, next: Request) {
    server(previous).Some? && NextRequest(server(previous).value, decode) == Some(next)
  }

  /**
   * `requests` is the sequence of requests one crawl issues when at most `maxFollowUps`
   * continuations may be followed: a chain that stops only on a failed request, on a
   * page without a continuation, or when the allowance is used up.
   */
  ghost predicate IsRun(server: Server, decode: Decoder, maxFollowUps: nat, requests: seq<Request>) {
    && IsChain(server, decode, requests)
    && |requests| <= maxFollowUps + 1
    && (|requests| <= maxFollowUps ==>
          var last := server(requests[|requests| - 1]);
          last.None? || NextRequest(last.value, decode).None?)
  }

  /** The candidate records of the pages `requests` brought back, page after page. */
  function AllCandidates(server: Server, requests: seq<Request>): seq<Testimonial> {
    if requests == [] then []
    else
      AllCandidates(server, requests[..|requests| - 1]) +
      match server(requests[|requests| - 1])
      case Some(els) => Candidates(els)
      case None => []
  }

  /** The testimonials a crawl issuing `requests` returns. */
  function Collected(server: Server, requests: seq<Request>): seq<Testimonial> {
    KeepFirst(AllCandidates(server, requests))
  }

  /** The last request adds the candidates of its page, or none if it failed. */
  lemma AllCandidatesLast(server: Server, requests: seq<Request>)
    requires requests != []
    ensures server(requests[|requests| - 1]).Some? ==>
      AllCandidates(server, requests) ==
        AllCandidates(server, requests[..|requests| - 1]) + Candidates(server(requests[|requests| - 1]).value)
    ensures server(requests[|requests| - 1]).None? ==>
      Collected(server, requests) == Collected(server, requests[..|requests| - 1])
  {
    hide Extract, KeepFirst, Candidates;
    var p := requests[..|requests| - 1];
    if server(requests[|requests| - 1]).None? {
      assert AllCandidates(server, requests) == AllCandidates(server, p) + [];
      assert AllCandidates(server, p) + [] == AllCandidates(server, p);
    }
  }

  /**
   * The element loop of one page: it keeps the new testimonials and notes the `hx-get`
   * and the declared headers of the last element that has an `hx-get`.
   */
  method ScanPage(els: seq<Element>, decode: Decoder, testimonials: seq<Testimonial>, seen: set<string>, ghost c: seq<Testimonial>)
    returns (testimonials': seq<Testimonial>, seen': set<string>, trigger: Option<string>, declared: Headers)
    requires testimonials == KeepFirst(c) && seen == Texts(testimonials)
    ensures testimonials' == KeepFirst(c + Candidates(els)) && seen' == Texts(testimonials')
    ensures trigger == NotedTrigger(els)
    ensures declared == NotedHeaders(els, decode)
  {
    hide Extract, KeepFirst;
    testimonials', seen' := testimonials, seen;
    trigger, declared := None, map[];
    var i := 0;
    assert c + Candidates(els[..i]) == c;
    while i < |els|
      invariant 0 <= i <= |els|
      invariant testimonials' == KeepFirst(c + Candidates(els[..i])) && seen' == Texts(testimonials')
      invariant trigger == NotedTrigger(els[..i])
      invariant declared == NotedHeaders(els[..i], decode)
    {
      hide NotedTrigger, NotedHeaders;
      var e := els[i];
      NotedStep(els, decode, i);
      assert els[..i + 1][..i] == els[..i];
      assert c + Candidates(els[..i + 1]) == c + Candidates(els[..i]) + [Extract(e)];
      testimonials', seen' := KeepNew(testimonials', seen', c + Candidates(els[..i]), Extract(e));
      if e.hxGet.Some? {
        trigger := e.hxGet;
        var normalised := NormaliseQuotes(e.hxHeaders.GetOr("{}"));
        match decode(normalised) {
          case Some(h) => declared := h;
          case None => declared := map[];
        }
      }
      i := i + 1;
    }
    assert els[..i] == els;
  }

  /** What `ScanPage` notes about a page is what decides the continuation. */
  lemma NextRequestOf(els: seq<Element>, decode: Decoder, trigger: Option<string>, declared: Headers)
    requires trigger == NotedTrigger(els)
    requires declared == NotedHeaders(els, decode)
    ensures trigger.None? || trigger.value == "" ==> NextRequest(els, decode).None?
    ensures trigger.Some? && trigger.value != "" ==>
      NextRequest(els, decode) == Some(Request(trigger.value, Outgoing(declared)))
  {
  }

  /**
   * The headers of the follow-up request, built as the source builds them: the declared
   * headers, the fixed htmx headers over them, then the JSON `Accept` removed.
   */
  method BuildHeaders(declared: Headers) returns (toSend: Headers)
    ensures toSend == Outgoing(declared)
  {
    toSend := declared;
    toSend := toSend["HX-Request" := "true"];
    toSend := toSend["X-Requested-With" := "XMLHttpRequest"];
    toSend := toSend["Referer" := TestimonialsUrl];
    toSend := toSend["User-Agent" := UserAgent];
    if "Accept" in toSend && toSend["Accept"] == JsonType {
      toSend := toSend - {"Accept"};
    }
  }

  /**
   * `scrape_all_testimonials`, allowed to follow at most `maxFollowUps` continuations: it
   * returns the testimonials and the requests it issued.
   */
  method ScrapeAllTestimonials(server: Server, decode: Decoder, maxFollowUps: nat)
    returns (testimonials: seq<Testimonial>, requests: seq<Request>)
    ensures IsRun(server, decode, maxFollowUps, requests)
    ensures testimonials == Collected(server, requests)
  {
    testimonials := [];
    requests := [InitialRequest];
    var answer := server(InitialRequest);
    if answer.None? {
      AllCandidatesLast(server, requests);
      assert requests[..0] == [];
      return;
    }
    var page := answer.value;
    var seen: set<string> := {};
    var followUps := 0;
    while true
      invariant |requests| == followUps + 1 <= maxFollowUps + 1
      invariant IsChain(server, decode, requests)
      invariant server(requests[|requests| - 1]) == Some(page)
      invariant testimonials == KeepFirst(AllCandidates(server, requests[..|requests| - 1]))
      invariant seen == Texts(testimonials)
      decreases maxFollowUps - followUps
    {
      hide NextRequest, KeepFirst, Candidates, AllCandidates, Extract, Outgoing, IsChain;
      ghost var before := AllCandidates(server, requests[..|requests| - 1]);
      var trigger, declared;
      testimonials, seen, trigger, declared := ScanPage(page, decode, testimonials, seen, before);
      AllCandidatesLast(server, requests);
      NextRequestOf(page, decode, trigger, declared);
      if trigger.None? || trigger.value == "" {
        return;
      }
      if followUps == maxFollowUps {
        return;
      }
      var toSend := BuildHeaders(declared);
      var next := Request(trigger.value, toSend);
      ghost var previous := requests;
      ChainExtend(server, decode, requests, next);
      requests := requests + [next];
      assert requests[..|requests| - 1] == previous;
      followUps := followUps + 1;
      answer := server(next);
      if answer.None? {
        AllCandidatesLast(server, requests);
        return;
      }
      page := answer.value;
    }
  }

  // ---------------------------------------------------------------------------
  // Properties of a crawl
  // ---------------------------------------------------------------------------

  /** Two crawls against the same server, decoder and allowance issue the same requests. */
  lemma RunIsUnique(server: Server, decode: Decoder, maxFollowUps: nat, r1: seq<Request>, r2: seq<Request>)
    requires IsRun(server, decode, maxFollowUps, r1) && IsRun(server, decode, maxFollowUps, r2)
    ensures r1 == r2
  {
    if |r1| <= |r2| {
      ChainsAgree(server, decode, r1, r2, |r1|);
    } else {
      ChainsAgree(server, decode, r2, r1, |r2|);
    }
    if |r1| < |r2| {
      ChainStep(server, decode, r2, |r1| - 1);
      assert false;
    } else if |r2| < |r1| {
      ChainStep(server, decode, r1, |r2| - 1);
      assert false;
    }
  }

  /** A chain goes on with the continuation of the page its last request brought back. */
  lemma ChainExtend(server: Server, decode: Decoder, requests: seq<Request>, next: Request)
    requires IsChain(server, decode, requests)
    requires Follows(server, decode, requests[|requests| - 1], next)
    ensures IsChain(server, decode, requests + [next])
  {
    var r := requests + [next];
    forall i | 0 <= i < |r| - 1
      ensures Follows(server, decode, r[i], r[i + 1])
    {
      if i < |requests| - 1 {
        ChainStep(server, decode, requests, i);
      }
    }
  }

  /** Each request of a chain after the first is the continuation of the page before it. */
  lemma ChainStep(server: Server, decode: Decoder, requests: seq<Request>, i: nat)
    requires IsChain(server, decode, requests) && i + 1 < |requests|
    ensures Follows(server, decode, requests[i], requests[i + 1])
  {
  }

  /** Two chains against the same server and decoder agree on their first `n` requests. */
  lemma {:induction false} ChainsAgree(server: Server, decode: Decoder, r1: seq<Request>, r2: seq<Request>, n: nat)
    requires IsChain(server, decode, r1) && IsChain(server, decode, r2)
    requires n <= |r1| && n <= |r2|
    ensures r1[..n] == r2[..n]
  {
    if n > 0 {
      ChainsAgree(server, decode, r1, r2, n - 1);
      if n > 1 {
        assert r1[n - 2] == r2[n - 2] by {
          assert r1[..n - 1][n - 2] == r2[..n - 1][n - 2];
        }
        ChainStep(server, decode, r1, n - 2);
        ChainStep(server, decode, r2, n - 2);
      }
      assert r1[..n] == r1[..n - 1] + [r1[n - 1]];
      assert r2[..n] == r2[..n - 1] + [r2[n - 1]];
    }
  }

  /** A crawl that stopped before using up its allowance stops there under any larger one. */
  lemma AllowanceIrrelevant(server: Server, decode: Decoder, maxFollowUps: nat, more: nat, requests: seq<Request>)
    requires IsRun(server, decode, maxFollowUps, requests) && |requests| <= maxFollowUps <= more
    ensures IsRun(server, decode, more, requests)
  {
  }

  /** When the first request fails the crawl returns nothing. */
  lemma InitialFailure(server: Server, decode: Decoder, maxFollowUps: nat, requests: seq<Request>)
    requires IsRun(server, decode, maxFollowUps, requests) && server(InitialRequest).None?
    ensures requests == [InitialRequest]
    ensures Collected(server, requests) == []
  {
    if |requests| > 1 {
      ChainStep(server, decode, requests, 0);
      assert false;
    }
    assert requests == [InitialRequest];
    AllCandidatesLast(server, requests);
    assert requests[..0] == [];
  }

  /**
   * A failed request or a page without a usable continuation ends the crawl; a failed
   * request adds nothing to what the pages before it gave.
   */
  lemma StopIsLast(server: Server, decode: Decoder, maxFollowUps: nat, requests: seq<Request>, i: nat)
    requires IsRun(server, decode, maxFollowUps, requests) && i < |requests|
    requires server(requests[i]).None? || NextRequest(server(requests[i]).value, decode).None?
    ensures i == |requests| - 1
    ensures server(requests[i]).None? ==> Collected(server, requests) == Collected(server, requests[..i])
  {
    if i < |requests| - 1 {
      ChainStep(server, decode, requests, i);
      assert false;
    }
    AllCandidatesLast(server, requests);
  }

  /**
   * Every follow-up request carries the fixed htmx headers, its `Referer` is the
   * testimonials page whatever the continuation URL, and it has no `Accept` key whose
   * value is exactly `application/json`.
   */
  lemma FollowUpHeaders(server: Server, decode: Decoder, requests: seq<Request>, i: nat)
    requires IsChain(server, decode, requests) && 0 < i < |requests|
    ensures var h := requests[i].headers;
      && "HX-Request" in h && h["HX-Request"] == "true"
      && "X-Requested-With" in h && h["X-Requested-With"] == "XMLHttpRequest"
      && "Referer" in h && h["Referer"] == TestimonialsUrl
      && "User-Agent" in h && h["User-Agent"] == UserAgent
      && ("Accept" in h ==> h["Accept"] != JsonType)
    ensures requests[i].url != ""
  {
    ChainStep(server, decode, requests, i - 1);
  }

  /** The records a crawl returns never share a text, and they carry every text its pages offered. */
  lemma CollectedDistinct(server: Server, requests: seq<Request>)
    ensures forall i, j :: 0 <= i < j < |Collected(server, requests)| ==>
      Collected(server, requests)[i].text != Collected(server, requests)[j].text
    ensures Texts(Collected(server, requests)) == Texts(AllCandidates(server, requests))
  {
    KeepFirstTexts(AllCandidates(server, requests));
  }

  /** The candidates of the first `n` requests come first among those of all requests. */
  lemma {:induction false} AllCandidatesGrow(server: Server, requests: seq<Request>, n: nat)
    requires n <= |requests|
    ensures AllCandidates(server, requests[..n]) <= AllCandidates(server, requests)
    decreases |requests|
  {
    hide Candidates, Extract;
    if n == |requests| {
      assert requests[..n] == requests;
    } else {
      var p := requests[..|requests| - 1];
      assert p[..n] == requests[..n];
      AllCandidatesGrow(server, p, n);
    }
  }

  /** Testimonials kept from earlier pages are never removed or changed by later pages. */
  lemma CollectedGrows(server: Server, requests: seq<Request>, n: nat)
    requires n <= |requests|
    ensures Collected(server, requests[..n]) <= Collected(server, requests)
  {
    hide AllCandidates, Candidates, KeepFirst, Texts;
    var all, before := AllCandidates(server, requests), AllCandidates(server, requests[..n]);
    AllCandidatesGrow(server, requests, n);
    assert all == before + all[|before|..];
    KeepFirstGrows(before, all[|before|..]);
  }
}
